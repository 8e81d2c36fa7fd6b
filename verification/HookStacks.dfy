/** Several hooks on one target: what a wait restores depends on their order on the removal
    list alone, and LhUninstallAllHooks puts them in the wrong one. */
module HookStacks {
  import opened Bytes
  import opened Wrappers
  import opened HookEngine
  import opened HookRuns

  /** The bytes at the target under p of the stacked hooks; w are the original ones. */
  function Level(s: seq<Hook>, w: seq<Byte>, p: nat): (b: seq<Byte>)
    requires p <= |s|
  {
    if p == 0 then w else s[p - 1].copy
  }

  /** Hooks planted one over the other at t, oldest first, with different jumps. */
  ghost predicate Stacked(s: seq<Hook>, t: int, w: seq<Byte>) {
    && |w| == 8
    && (forall i :: 0 <= i < |s| ==>
         s[i].target == t && |s[i].copy| == 8 && s[i].copy != w && s[i].backup == Level(s, w, i))
    && (forall i, j :: 0 <= i < j < |s| ==> s[i].copy != s[j].copy)
  }

  ghost predicate OthersApart(removal: seq<Hook>, s: seq<Hook>, t: int) {
    forall h :: h in removal ==> h in s || Apart(h.target, t)
  }

  // ---- draining ------------------------------------------------------------

  /** How many of p stacked hooks are left when the removal list has been drained. */
  function Left(removal: seq<Hook>, s: seq<Hook>, p: nat): (q: nat)
    requires p <= |s|
    ensures q <= p
  {
    if removal == [] || p == 0 then p
    else Left(removal[1..], s, if removal[0] == s[p - 1] then p - 1 else p)
  }

  /** The first p stacked hooks stand on the removal list newest first. */
  predicate NewestFirstOn(removal: seq<Hook>, s: seq<Hook>, p: nat)
    requires p <= |s|
    decreases p
  {
    p == 0 || (var k := Find(removal, s[p - 1]); k.Some? && NewestFirstOn(removal[k.value + 1..], s, p - 1))
  }

  lemma DrainedLevel(w: Waited, shown: Counters, s: seq<Hook>, t: int, orig: seq<Byte>, p: nat)
    requires Stacked(s, t, orig) && p <= |s| && w.e.removal != [] && OthersApart(w.e.removal, s, t)
    requires InMem(w.e.mem, t) && Window(w.e.mem, t) == Level(s, orig, p)
    ensures var v, h := DrainOne(w, shown), w.e.removal[0];
      && v.e.removal == w.e.removal[1..] && InMem(v.e.mem, t) && |v.e.mem| == |w.e.mem|
      && Window(v.e.mem, t) == Level(s, orig, if p > 0 && h == s[p - 1] then p - 1 else p)
  {
    hide PollCounter, Window, Stacked, Level;
    var m, h := w.e.mem, w.e.removal[0];
    if InMem(m, h.target) && |h.backup| == 8 && Window(m, h.target) == h.copy {
      SpliceWindow(m, h.target, h.backup, t);
    }
    if h in s {
      MatchesTop(s, t, orig, p, h);
    } else {
      assert p > 0 ==> h != s[p - 1];
    }
  }

  /** Of the stacked hooks only the one on top finds its own jump at the target. */
  lemma MatchesTop(s: seq<Hook>, t: int, orig: seq<Byte>, p: nat, h: Hook)
    requires Stacked(s, t, orig) && p <= |s| && h in s
    ensures h.target == t && |h.backup| == 8
    ensures Level(s, orig, p) == h.copy <==> p > 0 && h == s[p - 1]
    ensures p > 0 && h == s[p - 1] ==> h.backup == Level(s, orig, p - 1)
  {
    var i :| 0 <= i < |s| && s[i] == h;
    assert p > 0 && i != p - 1 ==> s[i].copy != s[p - 1].copy;
  }

  /** A drain leaves at the target what the order of the removal list says. */
  lemma {:induction false} DrainLevels(w: Waited, shown: Counters, s: seq<Hook>, t: int, orig: seq<Byte>, p: nat)
    requires Stacked(s, t, orig) && p <= |s| && OthersApart(w.e.removal, s, t)
    requires InMem(w.e.mem, t) && Window(w.e.mem, t) == Level(s, orig, p)
    ensures var v := Drain(w, shown);
      InMem(v.e.mem, t) && Window(v.e.mem, t) == Level(s, orig, Left(w.e.removal, s, p))
    decreases |w.e.removal|
  {
    hide DrainOne, Stacked, Level, Window;
    if w.e.removal != [] {
      DrainedLevel(w, shown, s, t, orig, p);
      var q := if p > 0 && w.e.removal[0] == s[p - 1] then p - 1 else p;
      DrainLevels(DrainOne(w, shown), shown, s, t, orig, q);
      if p == 0 { LeftNone(w.e.removal[1..], s); }
    }
  }

  lemma LeftNone(removal: seq<Hook>, s: seq<Hook>)
    ensures Left(removal, s, 0) == 0
  {
  }

  /** What stands behind the first x is the same without another hook in front. */
  lemma FindBehind(removal: seq<Hook>, x: Hook)
    requires removal != []
    ensures removal[0] == x ==> Find(removal, x) == Some(0)
    ensures removal[0] != x ==> var k, l := Find(removal[1..], x), Find(removal, x);
      (k.None? <==> l.None?) && (k.Some? ==>
           l == Some(k.value + 1) && removal[l.value + 1..] == removal[1..][k.value + 1..])
  {
    var rest := removal[1..];
    if removal[0] == x {
      FindIs(removal, x, 0);
    } else {
      var k := Find(rest, x);
      if k.Some? {
        assert removal[..k.value + 1] == [removal[0]] + rest[..k.value];
        FindIs(removal, x, k.value + 1);
      }
    }
  }

  lemma {:induction false} NoneLeftIffNewestFirst(removal: seq<Hook>, s: seq<Hook>, p: nat)
    requires p <= |s|
    ensures Left(removal, s, p) == 0 <==> NewestFirstOn(removal, s, p)
    decreases |removal|
  {
    hide Find;
    if p > 0 && removal != [] {
      FindBehind(removal, s[p - 1]);
      NoneLeftIffNewestFirst(removal[1..], s, if removal[0] == s[p - 1] then p - 1 else p);
    }
  }

  /** However many hooks are stacked on a target, and whatever else is pending: a wait restores
      the original bytes if and only if the stacked hooks stand on the removal list newest
      first. */
  lemma RestoredIffNewestFirst(e: Engine, shown: Counters, s: seq<Hook>, t: int, orig: seq<Byte>)
    requires Stacked(s, t, orig) && OthersApart(e.removal, s, t)
    requires InMem(e.mem, t) && Window(e.mem, t) == Level(s, orig, |s|)
    ensures var m := Wait(e, shown).e.mem; InMem(m, t) && (Window(m, t) == orig <==> NewestFirstOn(e.removal, s, |s|))
  {
    hide Window, Drain;
    DrainLevels(Waited(e, 0, WAIT_BUDGET, false, []), shown, s, t, orig, |s|);
    NoneLeftIffNewestFirst(e.removal, s, |s|);
  }

  /** For two hooks: the newer one stands before the older one. */
  lemma PairNewestFirst(removal: seq<Hook>, older: Hook, newer: Hook)
    requires NoDup(removal) && older in removal && newer in removal && older != newer
    ensures NewestFirstOn(removal, [older, newer], 2) <==> Find(removal, newer).value < Find(removal, older).value
  {
    var i, k := Find(removal, newer).value, Find(removal, older).value;
    var rest := removal[i + 1..];
    if i < k {
      assert rest[k - i - 1] == older;
    }
    assert NewestFirstOn(removal, [older, newer], 2) <==> Find(rest, older).Some?;
  }

  // ---- how hooks get stacked -----------------------------------------------

  /** Different trampolines in reach make different jumps. */
  lemma JumpsDiffer(t: int, p: int, q: int)
    requires p != q && Fits32(p - (t + 5)) && Fits32(q - (t + 5))
    ensures Jump(t, p) != Jump(t, q)
  {
    StoreInt32(p - (t + 5));
    StoreInt32(q - (t + 5));
    assert Jump(t, p)[1..] == Le(p - (t + 5), 4) && Jump(t, q)[1..] == Le(q - (t + 5), 4);
  }

  lemma CopyStarts(e: Engine, t: int, p: int)
    requires InMem(e.mem, t) && Install(e, t, p).1.Some?
    ensures Install(e, t, p).1.value.copy[..5] == Jump(t, p)
  {
    hide Jump;
  }

  /** Installing once more on the target puts one more hook on the stack. */
  lemma InstallStacks(e: Engine, s: seq<Hook>, t: int, orig: seq<Byte>, trampoline: int)
    requires InMem(e.mem, t) && Stacked(s, t, orig) && Window(e.mem, t) == Level(s, orig, |s|)
    requires Install(e, t, trampoline).1.Some?
    requires forall i :: 0 <= i < |s| ==> s[i].copy[..5] != Jump(t, trampoline)
    requires orig[..5] != Jump(t, trampoline)
    ensures var (f, r) := Install(e, t, trampoline);
      && Stacked(s + [r.value], t, orig) && InMem(f.mem, t) && Window(f.mem, t) == Level(s + [r.value], orig, |s| + 1)
      && f.list == [r.value] + e.list && r.value !in s
  {
    hide Jump, Splice, Stacked, Level, Window;
    var (f, r) := Install(e, t, trampoline);
    var h := r.value;
    CopyStarts(e, t, trampoline);
    SpliceWindow(e.mem, t, h.copy, t);
    StackGrows(s, t, orig, h);
  }

  lemma StackGrows(s: seq<Hook>, t: int, orig: seq<Byte>, h: Hook)
    requires Stacked(s, t, orig) && h.target == t && |h.copy| == 8 && h.backup == Level(s, orig, |s|)
    requires orig[..5] != h.copy[..5] && forall i :: 0 <= i < |s| ==> s[i].copy[..5] != h.copy[..5]
    ensures Stacked(s + [h], t, orig) && Level(s + [h], orig, |s| + 1) == h.copy && h !in s
  {
    hide Level;
    var u := s + [h];
    forall i | 0 <= i < |u|
      ensures u[i].target == t && |u[i].copy| == 8 && u[i].copy != orig && u[i].backup == Level(u, orig, i)
    {
      SameLevel(s, h, orig, i);
      if i < |s| {
        assert u[i] == s[i];
      }
    }
    forall i, j | 0 <= i < j < |u|
      ensures u[i].copy != u[j].copy
    {
      assert u[i] == s[i] && s[i].copy[..5] != h.copy[..5];
    }
    TopLevel(s, h, orig);
  }

  lemma SameLevel(s: seq<Hook>, h: Hook, w: seq<Byte>, p: nat)
    requires p <= |s|
    ensures Level(s + [h], w, p) == Level(s, w, p)
  {
  }

  lemma TopLevel(s: seq<Hook>, h: Hook, w: seq<Byte>)
    ensures Level(s + [h], w, |s| + 1) == h.copy
  {
  }

  // ---- uninstall all -------------------------------------------------------

  lemma {:induction false} ReverseFind(s: seq<Hook>, i: nat)
    requires i < |s| && NoDup(s)
    ensures Reverse(s)[|s| - 1 - i] == s[i]
  {
    if i > 0 {
      ReverseFind(s[1..], i - 1);
    }
  }

  /** LhUninstallAllHooks puts the older of two listed hooks in front of the newer one. */
  lemma UninstallAllReverses(e: Engine, i: nat, k: nat)
    requires NoDup(e.list) && i < k < |e.list| && Elements(e.list) !! Elements(e.removal)
    ensures var r := UninstallAll(e).removal;
      Find(r, e.list[k]) == Some(|e.list| - 1 - k) && Find(r, e.list[i]) == Some(|e.list| - 1 - i)
  {
    ReversedAt(e, i);
    ReversedAt(e, k);
  }

  lemma ReversedAt(e: Engine, j: nat)
    requires NoDup(e.list) && j < |e.list|
    ensures Find(UninstallAll(e).removal, e.list[j]) == Some(|e.list| - 1 - j)
  {
    var n, r, v := |e.list|, UninstallAll(e).removal, Reverse(e.list);
    ReverseFind(e.list, j);
    ReverseNoDup(e.list);
    hide Find, Reverse;
    assert v[n - 1 - j] == e.list[j] && e.list[j] !in v[..n - 1 - j];
    hide NoDup;
    assert r[..n - 1 - j] == v[..n - 1 - j] && r[n - 1 - j] == v[n - 1 - j];
    FindIs(r, e.list[j], n - 1 - j);
  }

  lemma RemovalsDistinct(e: Engine)
    requires NoDup(e.list) && NoDup(e.removal) && Elements(e.list) !! Elements(e.removal)
    ensures NoDup(UninstallAll(e).removal)
  {
    ReverseNoDup(e.list);
    ElementsJoin(Reverse(e.list), e.removal);
  }

  /** A hook list in installation order, newest first, never ends newest first on the removal
      list when it holds two hooks of one stack. */
  lemma UninstallAllNotNewestFirst(e: Engine, s: seq<Hook>, i: nat, k: nat)
    requires NoDup(e.list) && NoDup(e.removal) && Elements(e.list) !! Elements(e.removal)
    requires |s| >= 2 && i < k < |e.list| && e.list[i] == s[|s| - 1] && e.list[k] == s[|s| - 2]
    ensures !NewestFirstOn(UninstallAll(e).removal, s, |s|)
  {
    UninstallAllReverses(e, i, k);
    RemovalsDistinct(e);
    var r, n := UninstallAll(e).removal, |e.list|;
    hide UninstallAll;
    var rest := r[n - i..];
    assert Find(r, s[|s| - 1]).value == n - 1 - i;
    forall j | 0 <= j < |rest|
      ensures rest[j] != s[|s| - 2]
    {
      assert rest[j] == r[n - i + j] != r[n - 1 - k];
    }
  }

  /** LhUninstallAllHooks and a wait do not restore a target that carries a stack, however many
      hooks there are on it and elsewhere. */
  lemma UninstallAllLosesStack(e: Engine, shown: Counters, s: seq<Hook>, t: int, orig: seq<Byte>, i: nat, k: nat)
    requires NoDup(e.list) && NoDup(e.removal) && Elements(e.list) !! Elements(e.removal)
    requires Stacked(s, t, orig) && InMem(e.mem, t) && Window(e.mem, t) == Level(s, orig, |s|)
    requires OthersApart(UninstallAll(e).removal, s, t)
    requires |s| >= 2 && i < k < |e.list| && e.list[i] == s[|s| - 1] && e.list[k] == s[|s| - 2]
    ensures var m := Wait(UninstallAll(e), shown).e.mem; InMem(m, t) && Window(m, t) != orig
  {
    UninstallAllNotNewestFirst(e, s, i, k);
    hide Wait, Window, Stacked;
    RestoredIffNewestFirst(UninstallAll(e), shown, s, t, orig);
  }

  /** Two installs on a target that was clear. */
  ghost function Twice(e: Engine, t: int, p: int, q: int): (r: (Engine, Option<Hook>, Option<Hook>))
    requires InMem(e.mem, t)
  {
    var (f, a) := Install(e, t, p);
    var (g, b) := Install(f, t, q);
    (g, a, b)
  }

  lemma TwiceStacks(e: Engine, orig: seq<Byte>, t: int, p: int, q: int)
    requires Inv(e, orig) && Hookable(e, t) && InMem(orig, t) && p != q && Fits32(p - (t + 5)) && Fits32(q - (t + 5))
    requires Window(orig, t)[..5] != Jump(t, p) && Window(orig, t)[..5] != Jump(t, q)
    requires Twice(e, t, p, q).1.Some? && Twice(e, t, p, q).2.Some?
    ensures var (g, a, b) := Twice(e, t, p, q); var s, w := [a.value, b.value], Window(orig, t);
      && Stacked(s, t, w) && InMem(g.mem, t) && Window(g.mem, t) == Level(s, w, 2)
      && g.list == [b.value, a.value] + e.list && g.removal == e.removal && a.value !in Live(e) && b.value !in Live(e)
         && a.value != b.value
  {
    hide Inv, Jump, Window, Live, Stacked, Install;
    ClearWindow(e, orig, t);
    var (f, a) := Install(e, t, p);
    var w := Window(orig, t);
    JumpsDiffer(t, p, q);
    StackedNone(t, w);
    InstallStacks(e, [], t, w, p);
    assert [] + [a.value] == [a.value];
    InstallKeeps(e, orig, t, p);
    var (g, b) := Install(f, t, q);
    CopyStarts(e, t, p);
    SameRemoval(e, t, p);
    SameRemoval(f, t, q);
    NewIsLive(e, orig, t, p);
    InstallStacks(f, [a.value], t, w, q);
    assert [a.value] + [b.value] == [a.value, b.value];
    NewIdent(e, orig, t, p);
    NewIdent(f, orig, t, q);
    assert [b.value] + ([a.value] + e.list) == [b.value, a.value] + e.list;
  }

  lemma SameRemoval(e: Engine, t: int, p: int)
    requires InMem(e.mem, t)
    ensures Install(e, t, p).0.removal == e.removal
  {
  }

  lemma NewIsLive(e: Engine, orig: seq<Byte>, t: int, p: int)
    requires Inv(e, orig) && Hookable(e, t) && Install(e, t, p).1.Some?
    ensures var (f, h) := Install(e, t, p); h.value in Live(f) && Live(e) <= Live(f)
  {
    hide Inv, Install;
    InstallKeeps(e, orig, t, p);
  }

  lemma StackedNone(t: int, w: seq<Byte>)
    requires |w| == 8
    ensures Stacked([], t, w)
  {
  }

  lemma NewIdent(e: Engine, orig: seq<Byte>, t: int, p: int)
    requires Inv(e, orig) && InMem(e.mem, t) && Install(e, t, p).1.Some?
    ensures Install(e, t, p).1.value !in Live(e)
  {
    var h := Install(e, t, p).1.value;
    forall k | k in Live(e)
      ensures k != h
    {
      assert HookOk(e, orig, k);
    }
  }

  lemma {:induction false} LeftDrops(removal: seq<Hook>, s: seq<Hook>, p: nat)
    requires 0 < p <= |s| && s[p - 1] in removal
    ensures Left(removal, s, p) < p
    decreases |removal|
  {
    if removal[0] != s[p - 1] {
      LeftDrops(removal[1..], s, p);
    }
  }

  /** So whenever two hooks have been installed on one target, whatever other hooks there are,
      LhUninstallAllHooks and a wait leave the older jump in place. */
  lemma UninstallAllLeavesOlder(e: Engine, orig: seq<Byte>, t: int, p: int, q: int, shown: Counters)
    requires Inv(e, orig) && Hookable(e, t) && InMem(orig, t) && p != q && Fits32(p - (t + 5)) && Fits32(q - (t + 5))
    requires Window(orig, t)[..5] != Jump(t, p) && Window(orig, t)[..5] != Jump(t, q)
    requires Twice(e, t, p, q).1.Some? && Twice(e, t, p, q).2.Some?
    ensures var (g, a, _) := Twice(e, t, p, q); var m := Wait(UninstallAll(g), shown).e.mem;
      InMem(m, t) && Window(m, t) == a.value.copy && Window(m, t) != Window(orig, t)
  {
    assert InMem(e.mem, t);
    hide Inv, Jump, Window, Twice, Stacked, Hookable, Wait;
    TwiceStacks(e, orig, t, p, q);
    var (g, a, b) := Twice(e, t, p, q);
    var s, w := [a.value, b.value], Window(orig, t);
    TwiceLists(e, orig, g, t, a.value, b.value);
    UninstallAllNotNewestFirst(g, s, 0, 1);
    var r := UninstallAll(g).removal;
    NoneLeftIffNewestFirst(r, s, 2);
    LeftDrops(r, s, 2);
    PairLevels(UninstallAll(g), shown, s, t, w);
  }

  lemma PairLevels(e: Engine, shown: Counters, s: seq<Hook>, t: int, w: seq<Byte>)
    requires Stacked(s, t, w) && OthersApart(e.removal, s, t) && |s| == 2
    requires InMem(e.mem, t) && Window(e.mem, t) == Level(s, w, 2) && Left(e.removal, s, 2) == 1
    ensures var m := Wait(e, shown).e.mem; InMem(m, t) && Window(m, t) == s[0].copy != w
  {
    hide Drain, Window;
    DrainLevels(Waited(e, 0, WAIT_BUDGET, false, []), shown, s, t, w, 2);
  }

  lemma TwiceLists(e: Engine, orig: seq<Byte>, g: Engine, t: int, a: Hook, b: Hook)
    requires Inv(e, orig) && Hookable(e, t) && a !in Live(e) && b !in Live(e) && a != b
    requires g.list == [b, a] + e.list && g.removal == e.removal
    ensures NoDup(g.list) && NoDup(g.removal) && Elements(g.list) !! Elements(g.removal)
    ensures b in UninstallAll(g).removal && OthersApart(UninstallAll(g).removal, [a, b], t)
  {
    var l := [a] + e.list;
    assert g.list == [b] + l;
    ElementsCons(a, e.list);
    ElementsCons(b, l);
    assert a !in Elements(e.list) && b !in Elements(l);
    NoDupCons(a, e.list);
    NoDupCons(b, l);
    assert Elements(g.list) == Elements(e.list) + {a} + {b};
    hide Inv, NoDup, Elements;
    RemovalMembers(g);
    OthersAreLive(e, orig, g, t, a, b);
  }

  lemma RemovalMembers(e: Engine)
    ensures Elements(UninstallAll(e).removal) == Elements(e.list) + Elements(e.removal)
  {
  }

  lemma OthersAreLive(e: Engine, orig: seq<Byte>, g: Engine, t: int, a: Hook, b: Hook)
    requires Hookable(e, t) && g.removal == e.removal && Elements(g.list) == Elements(e.list) + {a} + {b}
    requires Elements(UninstallAll(g).removal) == Elements(g.list) + Elements(g.removal)
    ensures b in UninstallAll(g).removal && OthersApart(UninstallAll(g).removal, [a, b], t)
  {
    var r := UninstallAll(g).removal;
    hide UninstallAll;
    assert b in Elements(r);
    forall h | h in r
      ensures h in [a, b] || Apart(h.target, t)
    {
      assert h in Elements(r);
      assert h == a || h == b || h in Live(e);
    }
  }

  /** Uninstalled one by one with a single wait behind both, two hooks of one target must come
      off oldest first: the one uninstalled last is drained first. */
  lemma UninstallOrderDecides(e: Engine, shown: Counters, older: Hook, newer: Hook, olderFirst: bool, t: int,
                              orig: seq<Byte>)
    requires Stacked([older, newer], t, orig) && InMem(e.mem, t) && Window(e.mem, t) == newer.copy
    requires HookEngine.Installed(e, older) && HookEngine.Installed(e, newer) && NoDup(e.list) && NoDup(e.removal)
    requires older !in e.removal && newer !in e.removal && OthersApart(e.removal, [older, newer], t)
    ensures var (x, y) := if olderFirst then (older, newer) else (newer, older);
      var m := Wait(Uninstall(Uninstall(e, x), y), shown).e.mem;
      InMem(m, t) && (Window(m, t) == orig <==> olderFirst)
  {
    hide Wait, Window;
    var s := [older, newer];
    assert s[0].copy != s[1].copy;
    var (x, y) := if olderFirst then (older, newer) else (newer, older);
    OtherStaysInstalled(e, x, y);
    var f := Uninstall(Uninstall(e, x), y);
    assert f.removal == [y] + ([x] + e.removal) && f.mem == e.mem;
    hide Uninstall;
    assert OthersApart(f.removal, s, t);
    RestoredIffNewestFirst(f, shown, s, t, orig);
    OrderOnRemoval(e.removal, older, newer, olderFirst);
  }

  lemma OrderOnRemoval(removal: seq<Hook>, older: Hook, newer: Hook, olderFirst: bool)
    requires older != newer && NoDup(removal) && older !in removal && newer !in removal
    ensures var (x, y) := if olderFirst then (older, newer) else (newer, older);
      NewestFirstOn([y] + ([x] + removal), [older, newer], 2) <==> olderFirst
  {
    var (x, y) := if olderFirst then (older, newer) else (newer, older);
    var r := [y] + ([x] + removal);
    NoDupCons(x, removal);
    NoDupCons(y, [x] + removal);
    assert r[0] == y && r[1] == x && r[..0] == [] && r[..1] == [y];
    FindIs(r, y, 0);
    FindIs(r, x, 1);
    PairNewestFirst(r, older, newer);
  }

  lemma OtherStaysInstalled(e: Engine, x: Hook, y: Hook)
    requires HookEngine.Installed(e, x) && HookEngine.Installed(e, y) && x != y && NoDup(e.list)
    ensures HookEngine.Installed(Uninstall(e, x), y)
  {
    var at := Find(e.list, x);
    if at.Some? && y in e.list {
      SplitElements(e.list, at.value);
      assert y in Elements(e.list);
    }
  }

  // ---- targets that somebody else has patched since ------------------------

  /** The bytes at the hook's target are not the ones the install left there. */
  ghost predicate Changed(mem: seq<Byte>, h: Hook) { InMem(mem, h.target) && Window(mem, h.target) != h.copy }

  /** The removal list without its entry i. */
  function Without(s: seq<Hook>, i: nat): (r: seq<Hook>)
    requires i < |s|
  {
    s[..i] + s[i + 1..]
  }

  function Skipping(w: Waited, i: nat): (v: Waited)
    requires i < |w.e.removal|
  {
    w.(e := w.e.(removal := Without(w.e.removal, i)))
  }

  /** A pending hook whose target was changed leaves no trace in a wait. */
  lemma {:induction false} ChangedIsSkipped(w: Waited, shown: Counters, i: nat)
    requires i < |w.e.removal| && Changed(w.e.mem, w.e.removal[i])
    requires forall j :: 0 <= j < i ==> Apart(w.e.removal[j].target, w.e.removal[i].target)
    ensures Drain(w, shown) == Drain(Skipping(w, i), shown)
    decreases i
  {
    hide PollCounter;
    var s := w.e.removal;
    if i == 0 {
      assert Without(s, 0) == s[1..];
      assert DrainOne(w, shown) == Skipping(w, 0);
    } else {
      var v := DrainOne(w, shown);
      assert Without(s, i)[0] == s[0] && Without(s, i)[1..] == Without(s[1..], i - 1);
      assert DrainOne(Skipping(w, i), shown) == Skipping(v, i - 1);
      StillChanged(w, shown, s[i]);
      hide DrainOne, Changed;
      ChangedIsSkipped(v, shown, i - 1);
    }
  }

  lemma StillChanged(w: Waited, shown: Counters, h: Hook)
    requires w.e.removal != [] && Apart(w.e.removal[0].target, h.target) && Changed(w.e.mem, h)
    ensures Changed(DrainOne(w, shown).e.mem, h)
  {
    hide PollCounter, Window;
    var m, k := w.e.mem, w.e.removal[0];
    if InMem(m, k.target) && |k.backup| == 8 && Window(m, k.target) == k.copy {
      SpliceWindow(m, k.target, k.backup, h.target);
    }
  }

  /** A wait frees only hooks that were pending, and clears only their slots. */
  lemma {:induction false} DrainTouches(w: Waited, shown: Counters, h: Hook)
    requires h !in w.e.removal && h !in w.freed
    ensures var v := Drain(w, shown);
      && h !in v.freed && |v.e.slots| == |w.e.slots|
      && (h.index < |w.e.slots| && (forall k :: k in w.e.removal ==> k.index != h.index) ==>
           v.e.slots[h.index] == w.e.slots[h.index])
    decreases |w.e.removal|
  {
    hide PollCounter;
    if w.e.removal != [] {
      DrainTouches(DrainOne(w, shown), shown, h);
    }
  }

  /** A pending hook whose target somebody else has changed is dropped by the wait: it is not
      freed and keeps its slot, and time, timeout, code and the other hooks are what they are
      without it. */
  lemma ChangedHookIsDropped(e: Engine, shown: Counters, i: nat)
    requires i < |e.removal| && NoDup(e.removal) && Changed(e.mem, e.removal[i])
    requires forall j :: 0 <= j < |e.removal| && j != i ==>
      Apart(e.removal[j].target, e.removal[i].target) && e.removal[j].index != e.removal[i].index
    ensures var v, h := Wait(e, shown), e.removal[i];
      && h !in v.freed && (h.index < |e.slots| ==> h.index < |v.e.slots| && v.e.slots[h.index] == e.slots[h.index])
      && v == Wait(e.(removal := Without(e.removal, i)), shown)
      && (|e.removal| == 1 ==> !v.timedOut && v.budget == WAIT_BUDGET && v.e.mem == e.mem)
  {
    var w, h := Waited(e, 0, WAIT_BUDGET, false, []), e.removal[i];
    ChangedIsSkipped(w, shown, i);
    DrainTouches(Skipping(w, i), shown, h);
  }
}
