/** Installing, uninstalling and waiting without assuming that a call runs alone: the lock is
    dropped inside an install and between a wait's pops, restores, polls and frees, and other
    calls may come in between. */
module HookSteps {
  import opened Bytes
  import opened Wrappers
  import opened HookEngine
  import opened HookRuns

  /** An install under way: the hook is allocated, with the target's bytes backed up; then it
      has an identity and a slot as well. */
  datatype Pending =
    | Prepared(target: int, trampoline: int, backup: seq<Byte>)
    | Claimed(target: int, trampoline: int, backup: seq<Byte>, ident: int, index: nat)

  /** The engine, what installs have not yet put on the list (`pending` ones are not patched,
      `planted` ones are), and what waits have taken off the removal list: `popped` hooks are
      still patched, `held` ones are restored and wait for their counter, `leaked` ones were
      given up with their memory and slot. */
  datatype World = World(e: Engine, pending: set<Pending>, planted: set<Hook>, popped: set<Hook>, held: set<Hook>,
                         leaked: set<Hook>)

  datatype Move = SPrepare(target: int, trampoline: int) | SClaim(q: Pending) | SPatch(q: Pending) | SLink(h: Hook)
                 | SUninstall(h: Hook) | SUninstallAll
                 | SPop | SRestore(h: Hook) | SRelease(h: Hook) | SGiveUp(h: Hook)

  /** The engine with all hooks that are patched and on no list counted as dropped. */
  ghost function Seen(w: World): (r: Engine) { w.e.(dropped := w.e.dropped + w.popped + w.planted) }

  /** An install needs a target clear of patched windows and of other installs. */
  ghost predicate Clear(w: World, target: int) {
    Hookable(Seen(w), target) && forall q :: q in w.pending ==> Apart(target, q.target)
  }

  ghost predicate Allowed(w: World, ev: Move) {
    match ev
    case SPrepare(t, _) => Clear(w, t)
    case SClaim(q) => q in w.pending && q.Prepared?
    case SPatch(q) => q in w.pending && q.Claimed? && InMem(w.e.mem, q.target)
    case SLink(h) => h in w.planted
    case SUninstall(_) => true
    case SUninstallAll => true
    case SPop => w.e.removal != []
    case SRestore(h) => h in w.popped
    case SRelease(h) => h in w.held
    case SGiveUp(h) => h in w.held
  }

  /** The hook that patching makes of a claimed install. */
  function HookOf(q: Pending, mem: seq<Byte>): (h: Hook)
    requires q.Claimed? && InMem(mem, q.target)
    ensures |h.copy| == 8
  {
    Hook(q.target, q.trampoline, q.backup, Jump(q.target, q.trampoline) + Window(mem, q.target)[5..], q.ident, q.index)
  }

  /** One step of LhInstallHook, LhUninstallHook, LhUninstallAllHooks or of some
      LhWaitForPendingRemovals. An install whose trampoline is out of reach, or that finds no
      slot, gives up. */
  ghost function Moved(w: World, ev: Move): (v: World)
    requires Allowed(w, ev)
  {
    match ev
    case SPrepare(t, p) =>
      if InReach(t, p) then w.(pending := w.pending + {Prepared(t, p, Window(w.e.mem, t))}) else w
    case SClaim(q) =>
      var at := Find(w.e.slots, 0);
      var v := w.(e := w.e.(counter := w.e.counter + 1), pending := w.pending - {q});
      if at.None? then v
      else
        v.(e := v.e.(slots := w.e.slots[at.value := w.e.counter]),
           pending := v.pending + {Claimed(q.target, q.trampoline, q.backup, w.e.counter, at.value)})
    case SPatch(q) =>
      var h := HookOf(q, w.e.mem);
      w.(e := w.e.(mem := Splice(w.e.mem, q.target, h.copy)), pending := w.pending - {q}, planted := w.planted + {h})
    case SLink(h) => w.(e := w.e.(list := [h] + w.e.list), planted := w.planted - {h})
    case SUninstall(h) => w.(e := Uninstall(w.e, h))
    case SUninstallAll => w.(e := UninstallAll(w.e))
    case SPop => w.(e := w.e.(removal := w.e.removal[1..]), popped := w.popped + {w.e.removal[0]})
    case SRestore(h) =>
      var v := w.(popped := w.popped - {h});
      if InMem(w.e.mem, h.target) && |h.backup| == 8 && Window(w.e.mem, h.target) == h.copy then
        v.(e := w.e.(mem := Splice(w.e.mem, h.target, h.backup)), held := w.held + {h})
      else
        v.(leaked := w.leaked + {h})
    case SRelease(h) =>
      var f := if h.index < |w.e.slots| && w.e.slots[h.index] == h.ident then w.e.(slots := w.e.slots[h.index := 0])
        else w.e;
      w.(e := f, held := w.held - {h})
    case SGiveUp(h) => w.(held := w.held - {h}, leaked := w.leaked + {h})
  }

  /** The slot is marked with the identity. */
  ghost predicate Owns(e: Engine, ident: int, index: nat) {
    index < |e.slots| && e.slots[index] == ident && FIRST_IDENT <= ident < e.counter
  }

  /** A hook that is no longer patched still owns its slot. */
  ghost predicate Marked(e: Engine, h: Hook) { Owns(e, h.ident, h.index) }

  ghost function Retired(w: World): (r: set<Hook>) { w.held + w.leaked }

  /** An install under way: its target shows the original bytes, as backed up. */
  ghost predicate PendingOk(w: World, orig: seq<Byte>, q: Pending) {
    && InMem(w.e.mem, q.target) && InMem(orig, q.target) && InReach(q.target, q.trampoline)
    && q.backup == Window(orig, q.target) == Window(w.e.mem, q.target)
    && (forall h :: h in Live(Seen(w)) ==> Apart(q.target, h.target))
    && (q.Claimed? ==>
         && Owns(w.e, q.ident, q.index)
         && forall h :: h in Live(Seen(w)) || h in Retired(w) ==> h.ident != q.ident)
  }

  ghost predicate PendingApart(q: Pending, p: Pending) {
    Apart(q.target, p.target) && (q.Claimed? && p.Claimed? ==> q.ident != p.ident)
  }

  ghost predicate AllPending(w: World, orig: seq<Byte>) {
    && (forall q :: q in w.pending ==> PendingOk(w, orig, q))
    && (forall q, p :: q in w.pending && p in w.pending && q != p ==> PendingApart(q, p))
  }

  /** Every hook is in one place. */
  ghost predicate Placed(w: World) {
    && Elements(w.e.removal) !! w.popped && Elements(w.e.list) !! w.popped && w.e.dropped !! w.popped
    && Elements(w.e.removal) !! w.planted && Elements(w.e.list) !! w.planted && w.e.dropped !! w.planted
    && w.popped !! w.planted && w.held !! w.leaked
  }

  ghost predicate RetiredOk(w: World) {
    && (forall h :: h in Retired(w) ==> Marked(w.e, h))
    && (forall h, k :: h in Retired(w) && k in Retired(w) && h != k ==> h.ident != k.ident)
    && (forall h, k :: h in Retired(w) && k in Live(Seen(w)) ==> h.ident != k.ident)
  }

  ghost predicate WorldOk(w: World, orig: seq<Byte>) {
    Inv(Seen(w), orig) && Placed(w) && RetiredOk(w) && AllPending(w, orig)
  }

  // ---- every step keeps it -------------------------------------------------

  /** What installs under way rely on is left alone. */
  lemma PendingKept(w: World, orig: seq<Byte>, v: World)
    requires AllPending(w, orig) && v.pending <= w.pending
    requires |v.e.mem| == |w.e.mem| && |v.e.slots| == |w.e.slots| && v.e.counter >= w.e.counter
    requires Live(Seen(v)) <= Live(Seen(w)) && Retired(v) <= Retired(w) + Live(Seen(w))
    requires forall q :: q in v.pending ==>
      InMem(w.e.mem, q.target) && Window(v.e.mem, q.target) == Window(w.e.mem, q.target)
    requires forall q :: q in v.pending && q.Claimed? && q.index < |w.e.slots| ==>
      v.e.slots[q.index] == w.e.slots[q.index]
    ensures AllPending(v, orig)
  {
    hide Live, Seen, Retired;
    forall q | q in v.pending
      ensures PendingOk(v, orig, q)
    {
      assert PendingOk(w, orig, q);
    }
  }

  lemma PendingInMem(w: World, orig: seq<Byte>)
    requires AllPending(w, orig)
    ensures forall q :: q in w.pending ==> InMem(w.e.mem, q.target)
  {
    assert forall q :: q in w.pending ==> PendingOk(w, orig, q);
  }

  /** The same lists, memory and slots. */
  lemma SameBytesPending(w: World, orig: seq<Byte>, v: World)
    requires AllPending(w, orig) && v.pending <= w.pending
    requires v.e.mem == w.e.mem && v.e.slots == w.e.slots && v.e.counter == w.e.counter
    requires Live(Seen(v)) <= Live(Seen(w)) && Retired(v) <= Retired(w) + Live(Seen(w))
    ensures AllPending(v, orig)
  {
    hide Live, Seen, Retired;
    PendingInMem(w, orig);
    PendingKept(w, orig, v);
  }

  lemma PrepareStep(w: World, orig: seq<Byte>, t: int, p: int)
    requires WorldOk(w, orig) && Clear(w, t)
    ensures WorldOk(Moved(w, SPrepare(t, p)), orig) && Live(Seen(Moved(w, SPrepare(t, p)))) == Live(Seen(w))
  {
    var v := Moved(w, SPrepare(t, p));
    assert Seen(v) == Seen(w);
    ClearWindow(Seen(w), orig, t);
    hide Inv, Live, InReach;
    var n := Prepared(t, p, Window(w.e.mem, t));
    forall q | q in v.pending
      ensures PendingOk(v, orig, q)
    {
      if q != n {
        assert PendingOk(w, orig, q);
      }
    }
  }

  lemma ClaimStep(w: World, orig: seq<Byte>, q: Pending)
    requires WorldOk(w, orig) && q in w.pending && q.Prepared?
    ensures WorldOk(Moved(w, SClaim(q)), orig) && Live(Seen(Moved(w, SClaim(q)))) == Live(Seen(w))
  {
    var v := Moved(w, SClaim(q));
    var at := Find(w.e.slots, 0);
    SlotClaimed(Seen(w), orig, at, Seen(v));
    hide Inv, Live;
    assert PendingOk(w, orig, q);
    forall h | h in Retired(v)
      ensures Marked(v.e, h)
    {
      assert Marked(w.e, h);
    }
    ClaimPending(w, orig, q, v);
  }

  lemma ClaimPending(w: World, orig: seq<Byte>, q: Pending, v: World)
    requires AllPending(w, orig) && RetiredOk(w) && q in w.pending && q.Prepared? && v == Moved(w, SClaim(q))
    requires w.e.counter >= FIRST_IDENT && Live(Seen(v)) == Live(Seen(w))
    requires forall h :: h in Live(Seen(w)) ==> h.ident < w.e.counter
    ensures AllPending(v, orig)
  {
    hide Live, Seen;
    forall p | p in v.pending
      ensures PendingOk(v, orig, p)
    {
      if p in w.pending {
        assert PendingOk(w, orig, p);
      } else {
        assert PendingOk(w, orig, q);
      }
    }
    forall p, r | p in v.pending && r in v.pending && p != r
      ensures PendingApart(p, r)
    {
      assert p in w.pending ==> PendingOk(w, orig, p) && PendingApart(p, q) && PendingApart(q, p);
      assert r in w.pending ==> PendingOk(w, orig, r) && PendingApart(r, q) && PendingApart(q, r);
    }
  }

  /** Marking a free slot with a new identity. */
  lemma SlotClaimed(e: Engine, orig: seq<Byte>, at: Option<nat>, f: Engine)
    requires Inv(e, orig) && (at.Some? ==> at.value < |e.slots| && e.slots[at.value] == 0)
    requires f == e.(counter := e.counter + 1, slots := if at.Some? then e.slots[at.value := e.counter] else e.slots)
    ensures Inv(f, orig) && Live(f) == Live(e) && forall h :: h in Live(e) ==> h.ident < e.counter
  {
    assert Live(f) == Live(e);
    forall k | k in Live(f)
      ensures HookOk(f, orig, k) && k.ident < e.counter
    {
      assert HookOk(e, orig, k);
    }
    assert forall a :: Outside(f, a) ==> Outside(e, a);
    hide HookOk, Live;
  }

  lemma PatchStep(w: World, orig: seq<Byte>, q: Pending)
    requires WorldOk(w, orig) && q in w.pending && q.Claimed? && InMem(w.e.mem, q.target)
    ensures WorldOk(Moved(w, SPatch(q)), orig)
    ensures Live(Seen(Moved(w, SPatch(q)))) == Live(Seen(w)) + {HookOf(q, w.e.mem)}
  {
    var v, h := Moved(w, SPatch(q)), HookOf(q, w.e.mem);
    assert PendingOk(w, orig, q);
    PlantedKeeps(Seen(w), orig, Seen(v), h);
    PatchPending(w, orig, q, v);
    hide Inv, HookOk, AllPending;
    assert h !in Live(Seen(w));
  }

  lemma PatchPending(w: World, orig: seq<Byte>, q: Pending, v: World)
    requires AllPending(w, orig) && q in w.pending && q.Claimed? && InMem(w.e.mem, q.target) && v == Moved(w, SPatch(q))
    requires Live(Seen(v)) == Live(Seen(w)) + {HookOf(q, w.e.mem)}
    ensures AllPending(v, orig)
  {
    hide Live, Seen;
    var h := HookOf(q, w.e.mem);
    assert PendingOk(w, orig, q);
    forall p | p in v.pending
      ensures PendingOk(v, orig, p)
    {
      assert PendingOk(w, orig, p) && PendingApart(p, q);
      SpliceWindow(w.e.mem, q.target, h.copy, p.target);
    }
  }

  /** Planting the jump of a hook that owns a slot. */
  lemma PlantedKeeps(e: Engine, orig: seq<Byte>, f: Engine, h: Hook)
    requires Inv(e, orig) && Hookable(e, h.target) && Marked(e, h)
    requires InMem(orig, h.target) && h.backup == Window(orig, h.target)
    requires |h.copy| == 8 && h.copy[5..] == h.backup[5..] && Jumps(h)
    requires forall k :: k in Live(e) ==> k.ident != h.ident
    requires f == e.(mem := Splice(e.mem, h.target, h.copy), dropped := f.dropped) && f.dropped == e.dropped + {h}
    ensures Inv(f, orig) && Live(f) == Live(e) + {h}
  {
    hide Jumps, Window, Splice, Outside, NoDup;
    assert Live(f) == Live(e) + {h};
    PlantedHookOk(e, orig, f, h);
    OutsideAll(e, orig, f, h);
    forall k | k in Live(e)
      ensures HookOk(f, orig, k) && Apart(h.target, k.target) && h.ident != k.ident
    {
      assert HookOk(e, orig, k);
      OtherHookOk(e, orig, f, h.target, h.copy, k);
    }
    assert h !in Elements(e.list) && h !in Elements(e.removal) by {
      assert h !in Live(e);
    }
    hide HookOk, Live;
  }

  lemma LinkStep(w: World, orig: seq<Byte>, h: Hook)
    requires WorldOk(w, orig) && h in w.planted
    ensures WorldOk(Moved(w, SLink(h)), orig) && Live(Seen(Moved(w, SLink(h)))) == Live(Seen(w))
  {
    var v := Moved(w, SLink(h));
    ElementsCons(h, w.e.list);
    InListIsElement(w.e.list, h);
    NoDupCons(h, w.e.list);
    assert Live(Seen(v)) == Live(Seen(w));
    Relinked(Seen(w), orig, Seen(v));
    SameBytesPending(w, orig, v);
    hide Inv, NoDup, AllPending;
  }

  /** Hooks that change lists only. */
  lemma RelinkedWorld(w: World, orig: seq<Byte>, v: World)
    requires WorldOk(w, orig) && Inv(Seen(v), orig) && Placed(v) && Live(Seen(v)) == Live(Seen(w))
    requires v.pending == w.pending && v.held == w.held && v.leaked == w.leaked
    requires v.e.mem == w.e.mem && v.e.slots == w.e.slots && v.e.counter == w.e.counter
    ensures WorldOk(v, orig)
  {
    hide Inv, Placed, Live, Seen;
    assert Retired(v) == Retired(w);
    SameBytesPending(w, orig, v);
    hide AllPending;
  }

  /** What uninstalling does to the lists, with h where a handle can name it. */
  lemma UninstalledSeen(w: World, h: Hook)
    requires Placed(w) && HookEngine.Installed(w.e, h) && NoDup(w.e.list)
    ensures var v := Moved(w, SUninstall(h)); Placed(v) && Seen(v) == Uninstall(Seen(w), h)
  {
    hide NoDup;
    InListIsElement(w.e.list, h);
    assert h !in w.popped + w.planted;
    ElementsCons(h, w.e.removal);
    var at := Find(w.e.list, h);
    if at.Some? { SplitElements(w.e.list, at.value); }
  }

  lemma UninstallStep(w: World, orig: seq<Byte>, h: Hook)
    requires WorldOk(w, orig)
    ensures WorldOk(Moved(w, SUninstall(h)), orig) && Live(Seen(Moved(w, SUninstall(h)))) == Live(Seen(w))
  {
    hide Inv, AllPending, RetiredOk, Live, Placed, Seen;
    if HookEngine.Installed(w.e, h) {
      SeenLists(w, orig);
      UninstalledSeen(w, h);
      UninstallKeeps(Seen(w), orig, h);
      UninstallFields(w, h);
      RelinkedWorld(w, orig, Moved(w, SUninstall(h)));
    } else {
      assert Moved(w, SUninstall(h)) == w;
    }
  }

  lemma SeenLists(w: World, orig: seq<Byte>)
    requires WorldOk(w, orig)
    ensures NoDup(w.e.list) && NoDup(w.e.removal)
  {
    hide AllPending, RetiredOk, Placed;
    ListsApart(Seen(w), orig);
  }

  lemma UninstallFields(w: World, h: Hook)
    ensures var v := Moved(w, SUninstall(h));
      && v.pending == w.pending && v.held == w.held && v.leaked == w.leaked
      && v.e.mem == w.e.mem && v.e.slots == w.e.slots && v.e.counter == w.e.counter
  {
  }

  lemma InListIsElement(s: seq<Hook>, h: Hook)
    ensures h in s <==> h in Elements(s)
  {
  }

  lemma UninstallAllStep(w: World, orig: seq<Byte>)
    requires WorldOk(w, orig)
    ensures WorldOk(Moved(w, SUninstallAll), orig) && Live(Seen(Moved(w, SUninstallAll))) == Live(Seen(w))
  {
    hide Inv, AllPending, RetiredOk, Live, Placed;
    SeenLists(w, orig);
    UninstallAllPlaced(w);
    UninstallAllKeeps(Seen(w), orig);
    RelinkedWorld(w, orig, Moved(w, SUninstallAll));
  }

  lemma UninstallAllPlaced(w: World)
    requires Placed(w) && NoDup(w.e.list)
    ensures var v := Moved(w, SUninstallAll); Placed(v) && Seen(v) == UninstallAll(Seen(w))
  {
    ReverseNoDup(w.e.list);
    ElementsJoin(Reverse(w.e.list), w.e.removal);
    assert Elements([]) == {};
    hide NoDup;
  }

  lemma PopStep(w: World, orig: seq<Byte>)
    requires WorldOk(w, orig) && w.e.removal != []
    ensures WorldOk(Moved(w, SPop), orig) && Live(Seen(Moved(w, SPop))) == Live(Seen(w))
  {
    var v, h := Moved(w, SPop), w.e.removal[0];
    PoppedLive(w, orig);
    PopRelinks(w, orig);
    SameBytesPending(w, orig, v);
    hide Inv, NoDup, AllPending, Live, Seen;
    assert Retired(v) == Retired(w);
    assert Elements(v.e.removal) <= Elements(w.e.removal) && h !in Elements(v.e.removal);
  }

  lemma PoppedLive(w: World, orig: seq<Byte>)
    requires WorldOk(w, orig) && w.e.removal != []
    ensures var v, h := Moved(w, SPop), w.e.removal[0];
      && Live(Seen(v)) == Live(Seen(w)) && h in Elements(w.e.removal) && NoDup(v.e.removal)
      && Elements(w.e.removal) == Elements(v.e.removal) + {h} && h !in Elements(v.e.removal)
  {
    SplitElements(w.e.removal, 0);
    assert w.e.removal[..0] == [] && Elements([]) == {};
    hide HookOk, Window, AllPending, RetiredOk;
  }

  lemma PopRelinks(w: World, orig: seq<Byte>)
    requires WorldOk(w, orig) && w.e.removal != []
    ensures Inv(Seen(Moved(w, SPop)), orig)
  {
    hide Inv, AllPending, RetiredOk, Live, NoDup;
    PoppedLive(w, orig);
    ListsApart(Seen(w), orig);
    Relinked(Seen(w), orig, Seen(Moved(w, SPop)));
  }

  lemma ListsApart(e: Engine, orig: seq<Byte>)
    requires Inv(e, orig)
    ensures NoDup(e.list) && NoDup(e.removal)
    ensures Elements(e.list) !! Elements(e.removal) && Elements(e.list) !! e.dropped && Elements(e.removal) !! e.dropped
  {
    hide HookOk, Outside, NoDup;
  }

  /** A popped hook still finds its jump, and restoring it leaves the others alone. */
  lemma RestoreStep(w: World, orig: seq<Byte>, h: Hook)
    requires WorldOk(w, orig) && h in w.popped
    ensures var v := Moved(w, SRestore(h));
      WorldOk(v, orig) && v.held == w.held + {h} && v.leaked == w.leaked && Live(Seen(v)) == Live(Seen(w)) - {h}
  {
    var s, v := Seen(w), Moved(w, SRestore(h));
    assert h in Live(s) && HookOk(s, orig, h);
    var front := s.(dropped := s.dropped - {h}, removal := [h] + s.removal);
    ElementsCons(h, s.removal);
    InListIsElement(s.removal, h);
    NoDupCons(h, s.removal);
    assert Live(front) == Live(s);
    Relinked(s, orig, front);
    assert front.removal[1..] == s.removal;
    assert Seen(v) == front.(removal := front.removal[1..], mem := Splice(front.mem, h.target, h.backup),
                             slots := front.slots);
    RestoreKeeps(front, orig, h, Seen(v), false);
    RestorePending(w, orig, h, v);
    hide Inv, HookOk, NoDup, AllPending;
  }

  lemma RestorePending(w: World, orig: seq<Byte>, h: Hook, v: World)
    requires AllPending(w, orig) && h in Live(Seen(w)) && h in w.popped && v == Moved(w, SRestore(h))
    requires Live(Seen(v)) <= Live(Seen(w))
    ensures AllPending(v, orig)
  {
    hide Live, Seen;
    PendingInMem(w, orig);
    forall q | q in v.pending
      ensures Window(v.e.mem, q.target) == Window(w.e.mem, q.target)
    {
      assert PendingOk(w, orig, q);
      if v.e.mem != w.e.mem {
        SpliceWindow(w.e.mem, h.target, h.backup, q.target);
      }
    }
    PendingKept(w, orig, v);
  }

  lemma ReleaseStep(w: World, orig: seq<Byte>, h: Hook)
    requires WorldOk(w, orig) && h in w.held
    ensures Marked(w.e, h)
    ensures var v := Moved(w, SRelease(h));
      WorldOk(v, orig) && v.e.slots == w.e.slots[h.index := 0] && Live(Seen(v)) == Live(Seen(w))
  {
    var s, v := Seen(w), Moved(w, SRelease(h));
    assert h in Retired(w) && Marked(w.e, h);
    SlotFreed(s, orig, h, Seen(v));
    ReleasePending(w, orig, h, v);
    hide Inv, HookOk, AllPending;
    assert forall k :: k in Retired(v) ==> k in Retired(w) && k != h && k.ident != h.ident;
    assert forall k :: k in Retired(v) ==> Marked(w.e, k);
  }

  lemma ReleasePending(w: World, orig: seq<Byte>, h: Hook, v: World)
    requires AllPending(w, orig) && h in Retired(w) && Marked(w.e, h) && h in w.held && v == Moved(w, SRelease(h))
    requires Live(Seen(v)) == Live(Seen(w))
    ensures AllPending(v, orig)
  {
    hide Live, Seen;
    PendingInMem(w, orig);
    assert |v.e.slots| == |w.e.slots|;
    forall q | q in v.pending && q.Claimed? && q.index < |w.e.slots|
      ensures v.e.slots[q.index] == w.e.slots[q.index]
    {
      assert PendingOk(w, orig, q);
    }
    PendingKept(w, orig, v);
  }

  /** Clearing the slot of a hook that is no longer patched. */
  lemma SlotFreed(e: Engine, orig: seq<Byte>, h: Hook, f: Engine)
    requires Inv(e, orig) && Marked(e, h) && forall k :: k in Live(e) ==> k.ident != h.ident
    requires f == e.(slots := e.slots[h.index := 0])
    ensures Inv(f, orig) && Live(f) == Live(e)
  {
    assert Live(f) == Live(e);
    forall k | k in Live(f)
      ensures HookOk(f, orig, k)
    {
      assert HookOk(e, orig, k);
    }
    assert forall a :: Outside(f, a) ==> Outside(e, a);
    hide HookOk, Live;
  }

  lemma GiveUpStep(w: World, orig: seq<Byte>, h: Hook)
    requires WorldOk(w, orig) && h in w.held
    ensures WorldOk(Moved(w, SGiveUp(h)), orig) && Retired(Moved(w, SGiveUp(h))) == Retired(w)
    ensures Live(Seen(Moved(w, SGiveUp(h)))) == Live(Seen(w))
  {
    var v := Moved(w, SGiveUp(h));
    assert Retired(v) == Retired(w) && Seen(v) == Seen(w);
    SameBytesPending(w, orig, v);
    hide Inv, AllPending;
  }

  lemma StepKeepsWorld(w: World, orig: seq<Byte>, ev: Move)
    requires WorldOk(w, orig) && Allowed(w, ev)
    ensures WorldOk(Moved(w, ev), orig)
  {
    hide WorldOk, Moved;
    match ev
    case SPrepare(t, p) => PrepareStep(w, orig, t, p);
    case SClaim(q) => ClaimStep(w, orig, q);
    case SPatch(q) => PatchStep(w, orig, q);
    case SLink(h) => LinkStep(w, orig, h);
    case SUninstall(h) => UninstallStep(w, orig, h);
    case SUninstallAll => UninstallAllStep(w, orig);
    case SPop => PopStep(w, orig);
    case SRestore(h) => RestoreStep(w, orig, h);
    case SRelease(h) => ReleaseStep(w, orig, h);
    case SGiveUp(h) => GiveUpStep(w, orig, h);
  }

  /** A hook is patched or owns its slot until it is released. */
  lemma HooksStay(w: World, orig: seq<Byte>, ev: Move, h: Hook)
    requires WorldOk(w, orig) && Allowed(w, ev) && (h in Live(Seen(w)) || h in Retired(w)) && ev != SRelease(h)
    ensures var v := Moved(w, ev); h in Live(Seen(v)) || h in Retired(v)
  {
    hide WorldOk, Live, Seen;
    match ev
    case SPrepare(t, p) => PrepareStep(w, orig, t, p);
    case SClaim(q) => ClaimStep(w, orig, q);
    case SPatch(q) => PatchStep(w, orig, q);
    case SLink(k) => LinkStep(w, orig, k);
    case SUninstall(k) => UninstallStep(w, orig, k);
    case SUninstallAll => UninstallAllStep(w, orig);
    case SPop => PopStep(w, orig);
    case SRestore(k) => RestoreStep(w, orig, k);
    case SRelease(k) => ReleaseStep(w, orig, k);
    case SGiveUp(k) => GiveUpStep(w, orig, k);
  }

  // ---- runs ----------------------------------------------------------------

  ghost predicate AllowedRun(w: World, evs: seq<Move>)
    decreases |evs|
  {
    evs != [] ==> Allowed(w, evs[0]) && AllowedRun(Moved(w, evs[0]), evs[1..])
  }

  ghost function RunOf(w: World, evs: seq<Move>): (v: World)
    requires AllowedRun(w, evs)
    decreases |evs|
  {
    if evs == [] then w else RunOf(Moved(w, evs[0]), evs[1..])
  }

  /** Whatever order the steps of several waits and of the other calls come in, the invariant
      holds. */
  lemma {:induction false} InterleavingsKeep(w: World, orig: seq<Byte>, evs: seq<Move>)
    requires WorldOk(w, orig) && AllowedRun(w, evs)
    ensures WorldOk(RunOf(w, evs), orig)
    decreases |evs|
  {
    hide WorldOk, Moved, Allowed;
    if evs != [] {
      StepKeepsWorld(w, orig, evs[0]);
      InterleavingsKeep(Moved(w, evs[0]), orig, evs[1..]);
    }
  }

  function Begun(orig: seq<Byte>): (r: World) { World(Fresh(orig), {}, {}, {}, {}, {}) }

  lemma BegunOk(orig: seq<Byte>)
    ensures WorldOk(Begun(orig), orig)
  {
    FreshInv(orig);
    assert Seen(Begun(orig)) == Fresh(orig);
    hide Inv;
    assert Elements([]) == {};
  }

  /** Over every interleaving from the start: a hook that is patched, whether its install has
      put it on the list yet or not, and that is not yet restored, has its jump and the original
      bytes at its target; all other bytes are original. */
  lemma InterleavedCodeBytes(orig: seq<Byte>, evs: seq<Move>, a: int)
    requires AllowedRun(Begun(orig), evs) && 0 <= a < |orig|
    ensures var w := RunOf(Begun(orig), evs); var m, live := w.e.mem, Live(w.e) + w.popped + w.planted;
      && |m| == |orig|
      && (forall h :: h in live ==>
           InMem(m, h.target) && |h.copy| == 8 && Window(m, h.target) == h.copy[..5] + Window(orig, h.target)[5..])
      && ((forall h :: h in live ==> a < h.target || h.target + 5 <= a) ==> m[a] == orig[a])
  {
    BegunOk(orig);
    InterleavingsKeep(Begun(orig), orig, evs);
    var w := RunOf(Begun(orig), evs);
    hide RunOf, AllowedRun, Inv, Window;
    assert Live(Seen(w)) == Live(w.e) + w.popped + w.planted;
    InvBytes(Seen(w), orig, a);
  }

  // ---- a wait is such a run ------------------------------------------------

  /** The steps one wait takes when nobody interrupts it. */
  function WaitMoves(w: Waited, shown: Counters): (evs: seq<Move>)
    decreases |w.e.removal|
  {
    if w.e.removal == [] then []
    else
      var h := w.e.removal[0];
      var idle := PollCounter(shown, h, w.next, w.budget).idle;
      [SPop, SRestore(h), if idle then SRelease(h) else SGiveUp(h)] + WaitMoves(DrainOne(w, shown), shown)
  }

  /** Removing one hook is the three steps, one after another. */
  lemma DrainIsMoves(w: Waited, x: World, orig: seq<Byte>, shown: Counters)
    requires WorldOk(x, orig) && x.e == w.e && w.e.removal != []
    ensures var h := w.e.removal[0];
      var y := Moved(x, SPop); h in y.popped && var z := Moved(y, SRestore(h));
      h in z.held && var last := if PollCounter(shown, h, w.next, w.budget).idle then SRelease(h) else SGiveUp(h);
      Moved(z, last).e == DrainOne(w, shown).e && WorldOk(Moved(z, last), orig) && Allowed(z, last)
  {
    hide WorldOk, Inv, Live, Seen, Retired, Window, Splice, PollCounter;
    var h := w.e.removal[0];
    HeadMatches(x, orig);
    PopStep(x, orig);
    var y := Moved(x, SPop);
    RestoreStep(y, orig, h);
    var z := Moved(y, SRestore(h));
    ReleaseStep(z, orig, h);
    GiveUpStep(z, orig, h);
  }

  /** The next hook to be removed still finds its jump in place. */
  lemma HeadMatches(w: World, orig: seq<Byte>)
    requires WorldOk(w, orig) && w.e.removal != []
    ensures var h := w.e.removal[0]; InMem(w.e.mem, h.target) && |h.backup| == 8 && Window(w.e.mem, h.target) == h.copy
  {
    var h := w.e.removal[0];
    assert h in Elements(w.e.removal);
    assert h in Live(Seen(w)) && HookOk(Seen(w), orig, h);
  }

  /** An uninterrupted wait is a run of these steps. */
  lemma {:induction false} WaitIsMoves(w: Waited, x: World, orig: seq<Byte>, shown: Counters)
    requires WorldOk(x, orig) && x.e == w.e
    ensures AllowedRun(x, WaitMoves(w, shown)) && RunOf(x, WaitMoves(w, shown)).e == Drain(w, shown).e
    decreases |w.e.removal|
  {
    hide WorldOk, Moved, DrainOne, PollCounter;
    if w.e.removal != [] {
      var h := w.e.removal[0];
      DrainIsMoves(w, x, orig, shown);
      var y := Moved(x, SPop);
      var z := Moved(y, SRestore(h));
      var last := if PollCounter(shown, h, w.next, w.budget).idle then SRelease(h) else SGiveUp(h);
      var rest := WaitMoves(DrainOne(w, shown), shown);
      DrainOneBudget(w, shown);
      WaitIsMoves(DrainOne(w, shown), Moved(z, last), orig, shown);
      ThreeMoves(x, SPop, SRestore(h), last, rest);
    }
  }

  lemma OneMove(w: World, a: Move, rest: seq<Move>)
    requires Allowed(w, a) && AllowedRun(Moved(w, a), rest)
    ensures AllowedRun(w, [a] + rest) && RunOf(w, [a] + rest) == RunOf(Moved(w, a), rest)
  {
    assert ([a] + rest)[1..] == rest;
  }

  lemma ThreeMoves(w: World, a: Move, b: Move, c: Move, rest: seq<Move>)
    requires Allowed(w, a) && Allowed(Moved(w, a), b) && Allowed(Moved(Moved(w, a), b), c)
    requires AllowedRun(Moved(Moved(Moved(w, a), b), c), rest)
    ensures AllowedRun(w, [a, b, c] + rest)
    ensures RunOf(w, [a, b, c] + rest) == RunOf(Moved(Moved(Moved(w, a), b), c), rest)
  {
    hide Allowed, Moved;
    var w1, w2 := Moved(w, a), Moved(Moved(w, a), b);
    OneMove(w2, c, rest);
    OneMove(w1, b, [c] + rest);
    OneMove(w, a, [b] + ([c] + rest));
    assert [a, b, c] + rest == [a] + ([b] + ([c] + rest));
  }

  // ---- so is an install ----------------------------------------------------

  /** The steps one install takes when nobody interrupts it. */
  function InstallMoves(w: World, t: int, p: int): (evs: seq<Move>)
    requires InMem(w.e.mem, t)
  {
    var q, at := Prepared(t, p, Window(w.e.mem, t)), Find(w.e.slots, 0);
    if !InReach(t, p) then [SPrepare(t, p)]
    else if at.None? then [SPrepare(t, p)] + [SClaim(q)]
    else
      var c := Claimed(t, p, q.backup, w.e.counter, at.value);
      [SPrepare(t, p)] + ([SClaim(q)] + ([SPatch(c)] + [SLink(HookOf(c, w.e.mem))]))
  }

  /** An uninterrupted install is a run of its four steps, of the first two when no slot is free,
      or of the first alone when the trampoline is out of reach. */
  lemma InstallIsMoves(w: World, t: int, p: int)
    requires Clear(w, t)
    ensures AllowedRun(w, InstallMoves(w, t, p))
    ensures RunOf(w, InstallMoves(w, t, p)) == w.(e := Install(w.e, t, p).0)
  {
    var q, at := Prepared(t, p, Window(w.e.mem, t)), Find(w.e.slots, 0);
    assert forall x :: x in w.pending ==> x.target != t;
    var w1 := Moved(w, SPrepare(t, p));
    hide Jump, Window, Splice, RunOf, AllowedRun, InReach;
    if !InReach(t, p) {
      LastMove(w, SPrepare(t, p));
    } else if at.None? {
      LastMove(w1, SClaim(q));
      OneMove(w, SPrepare(t, p), [SClaim(q)]);
    } else {
      var c, w2 := Claimed(t, p, q.backup, w.e.counter, at.value), Moved(w1, SClaim(q));
      var w3 := Moved(w2, SPatch(c));
      var h := HookOf(c, w.e.mem);
      forall k | k in w.planted
        ensures k.target != t
      {
        assert k in Live(Seen(w));
      }
      LastMove(w3, SLink(h));
      OneMove(w2, SPatch(c), [SLink(h)]);
      OneMove(w1, SClaim(q), [SPatch(c)] + [SLink(h)]);
      OneMove(w, SPrepare(t, p), [SClaim(q)] + ([SPatch(c)] + [SLink(h)]));
    }
  }

  lemma LastMove(w: World, a: Move)
    requires Allowed(w, a)
    ensures AllowedRun(w, [a]) && RunOf(w, [a]) == Moved(w, a)
  {
    assert [a][1..] == [];
  }
}
