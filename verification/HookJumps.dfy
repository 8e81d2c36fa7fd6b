/** Where the planted jumps go: a thread that runs the code at the target of a hook comes to the
    hook's own trampoline, in every state that runs and interleavings of hook calls lead to. */
module HookJumps {
  import opened Bytes
  import opened Wrappers
  import opened HookEngine
  import opened HookRuns
  import X = X64
  import M = RelocMeaning
  import S = HookSteps
  import C = HookChains

  /** The code bytes stand in memory m from address 0 on. */
  ghost predicate Shows(m: X.Memory, mem: seq<Byte>) { forall a :: 0 <= a < |mem| ==> m(a) == mem[a] }

  /** The instruction at t has five bytes and goes to p. */
  ghost predicate Leads(dec: X.Decoder, m: X.Memory, t: int, p: int, acc: Option<int>) {
    X.At(dec, m, t).len == 5 && X.ActionAt(dec, m, t, acc) == X.JumpTo(X.Wrap64(p))
  }

  /** Whoever runs the code at t comes to p: so reads it every decoder that can be trusted
      there. */
  ghost predicate GoesTo(dec: X.Decoder, mem: seq<Byte>, t: int, p: int) {
    forall m: X.Memory, acc: Option<int> :: Shows(m, mem) && X.SoundAt(dec, m, t) ==> Leads(dec, m, t, p, acc)
  }

  lemma JumpGoes(dec: X.Decoder, mem: seq<Byte>, t: int, p: int)
    requires InMem(mem, t) && InReach(t, p) && Window(mem, t)[..5] == Jump(t, p)
    ensures GoesTo(dec, mem, t, p)
  {
    hide X.SoundAt, X.At, X.ActionAt, Le;
    forall m: X.Memory, acc: Option<int> | Shows(m, mem) && X.SoundAt(dec, m, t)
      ensures Leads(dec, m, t, p, acc)
    {
      var j := Jump(t, p);
      forall i | 0 <= i < |j|
        ensures m(t + i) == j[i]
      {
        assert j[i] == Window(mem, t)[..5][i] == mem[t + i];
      }
      M.JumpBack(dec, m, t, p, acc);
    }
  }

  /** Behind LhInstallHook the target leads to the trampoline. */
  lemma InstallGoesTo(e: Engine, target: int, trampoline: int, dec: X.Decoder)
    requires InMem(e.mem, target) && Install(e, target, trampoline).1.Some?
    ensures var f := Install(e, target, trampoline).0;
      -0x8000_0000 <= trampoline - (target + 5) < 0x8000_0000 && GoesTo(dec, f.mem, target, trampoline)
  {
    hide Jump;
    var (f, r) := Install(e, target, trampoline);
    SpliceWindow(e.mem, target, r.value.copy, target);
    JumpGoes(dec, f.mem, target, trampoline);
  }

  /** And nothing is planted exactly when the trampoline is out of reach or no slot is free; in
      the second case an identity is used up. */
  lemma InstalledIff(e: Engine, target: int, trampoline: int)
    requires InMem(e.mem, target)
    ensures var (f, r) := Install(e, target, trampoline);
      var reach := -0x8000_0000 <= trampoline - (target + 5) < 0x8000_0000;
      && (r.Some? <==> reach && 0 in e.slots)
      && (r.None? ==> f == if reach then e.(counter := e.counter + 1) else e)
  {
  }

  lemma LiveGoesTo(e: Engine, orig: seq<Byte>, h: Hook, dec: X.Decoder)
    requires Inv(e, orig) && h in Live(e)
    ensures GoesTo(dec, e.mem, h.target, h.trampoline)
  {
    assert HookOk(e, orig, h);
    JumpGoes(dec, e.mem, h.target, h.trampoline);
  }

  /** Over every run from the start. */
  lemma LiveJumps(orig: seq<Byte>, evs: seq<Event>, h: Hook, dec: X.Decoder)
    requires LegalRun(Fresh(orig), evs) && h in Live(Run(Fresh(orig), evs))
    ensures GoesTo(dec, Run(Fresh(orig), evs).mem, h.target, h.trampoline)
  {
    hide Inv, GoesTo;
    FreshInv(orig);
    RunKeeps(Fresh(orig), orig, evs);
    LiveGoesTo(Run(Fresh(orig), evs), orig, h, dec);
  }

  /** Over every interleaving from the start, also for hooks that are patched and not yet listed,
      and for hooks off the removal list that are not yet restored. */
  lemma InterleavedJumps(orig: seq<Byte>, evs: seq<S.Move>, h: Hook, dec: X.Decoder)
    requires S.AllowedRun(S.Begun(orig), evs)
    requires var w := S.RunOf(S.Begun(orig), evs); h in Live(w.e) + w.popped + w.planted
    ensures GoesTo(dec, S.RunOf(S.Begun(orig), evs).e.mem, h.target, h.trampoline)
  {
    hide Inv, GoesTo;
    S.BegunOk(orig);
    S.InterleavingsKeep(S.Begun(orig), orig, evs);
    var w := S.RunOf(S.Begun(orig), evs);
    hide S.RunOf, S.AllowedRun;
    LiveGoesTo(S.Seen(w), orig, h, dec);
  }

  // ---- hooks stacked on their targets --------------------------------------

  ghost predicate AllJump(c: C.Chains) { forall t, h :: t in c && h in c[t] ==> Jumps(h) }

  lemma {:induction false} DrainJump(w: Waited, shown: Counters, c: C.Chains)
    requires AllJump(c)
    ensures AllJump(C.DrainChains(w, shown, c))
    decreases |w.e.removal|
  {
    hide DrainOne, Jumps, InMem, Window;
    if w.e.removal != [] {
      C.DrainedIs(w, shown);
      DrainJump(DrainOne(w, shown), shown, C.Drained(w.e.mem, c, w.e.removal[0]));
    }
  }

  lemma EventJump(e: Engine, c: C.Chains, orig: seq<Byte>, ev: Event)
    requires AllJump(c) && C.MayHappen(e, c, orig, ev)
    ensures AllJump(C.Linked(e, c, ev))
  {
    hide DrainOne, Jump;
    match ev
    case EInstall(t, p) =>
      var r := Install(e, t, p).1;
      if r.Some? {
        assert Jumps(r.value);
        hide Jumps;
      }
    case EUninstall(_) =>
    case EUninstallAll =>
    case EWait(shown) => DrainJump(Waited(e, 0, WAIT_BUDGET, false, []), shown, c);
  }

  lemma {:induction false} RunJump(e: Engine, c: C.Chains, orig: seq<Byte>, evs: seq<Event>)
    requires AllJump(c) && C.ChainRun(e, c, orig, evs)
    ensures AllJump(C.RunTo(e, c, orig, evs).1)
    decreases |evs|
  {
    hide AllJump, C.Happened, C.Linked;
    if evs != [] {
      EventJump(e, c, orig, evs[0]);
      RunJump(C.Happened(e, evs[0]), C.Linked(e, c, evs[0]), orig, evs[1..]);
    }
  }

  /** Over every run that may stack hooks: a target with hooks on it leads to the trampoline of
      the newest. */
  lemma NewestJumps(orig: seq<Byte>, evs: seq<Event>, t: int, dec: X.Decoder)
    requires C.ChainRun(Fresh(orig), map[], orig, evs)
    ensures var (e, c) := C.RunTo(Fresh(orig), map[], orig, evs); var s := C.On(c, t);
      s != [] ==> s[|s| - 1].target == t && GoesTo(dec, e.mem, t, s[|s| - 1].trampoline)
  {
    C.FreshGood(orig);
    C.RunKeepsChains(Fresh(orig), map[], orig, evs);
    RunJump(Fresh(orig), map[], orig, evs);
    var (e, c) := C.RunTo(Fresh(orig), map[], orig, evs);
    hide C.RunTo, C.ChainRun, GoesTo;
    var s := C.On(c, t);
    if s != [] {
      assert C.ChainOk(e.mem, orig, t, s);
      assert Jumps(s[|s| - 1]);
      JumpGoes(dec, e.mem, t, s[|s| - 1].trampoline);
    }
  }
}
