/** EasyHook's alloc.c in x64 user mode: the search for a free page near the entry point,
    and why the two rel32 jumps of a hook always reach when the page comes from it. */
module PageSearch {
  import opened Bytes
  import opened Wrappers
  import opened X64
  import opened Reloc

  const REACH: int := 0x7FFF_FF00

  /** The search interval: REACH to both sides, cut to the application's address range. */
  function Low(entry: int, minApp: int): (r: int) { if entry - REACH < minApp then minApp else entry - REACH }

  function High(entry: int, maxApp: int): (r: int) { if entry + REACH > maxApp then maxApp else entry + REACH }

  function Ahead(entry: int, page: nat, k: nat): (r: int) { entry + k * page }

  function Behind(entry: int, page: nat, k: nat): (r: int) { entry - k * page }

  /** An allocation attempt at step k ahead, or behind, is made and succeeds. */
  ghost predicate HitAhead(entry: int, page: nat, hi: int, free: int -> bool, k: nat) {
    Ahead(entry, page, k) < hi && free(Ahead(entry, page, k))
  }

  ghost predicate HitBehind(entry: int, page: nat, lo: int, free: int -> bool, k: nat) {
    Behind(entry, page, k) > lo && free(Behind(entry, page, k))
  }

  ghost predicate Hit(entry: int, page: nat, lo: int, hi: int, free: int -> bool, k: nat) {
    HitAhead(entry, page, hi, free, k) || HitBehind(entry, page, lo, free, k)
  }

  /** An address the search can return. */
  ghost predicate Tried(entry: int, page: nat, lo: int, hi: int, a: int) {
    exists k: nat :: (a == Ahead(entry, page, k) && a < hi) || (a == Behind(entry, page, k) && a > lo)
  }

  /** The addresses tried, in numbers: those a whole number of pages away from the entry point,
      strictly inside the application's range and less than 0x7FFFFF00 away. */
  lemma TriedIff(entry: int, page: nat, minApp: int, maxApp: int, a: int)
    requires page > 0
    ensures Tried(entry, page, Low(entry, minApp), High(entry, maxApp), a) <==>
      && (a - entry) % page == 0
      && ((entry <= a < maxApp && a - entry < 0x7FFF_FF00) || (minApp < a <= entry && entry - a < 0x7FFF_FF00))
  {
    hide Ahead, Behind;
    StepsAre(entry, page, a);
  }

  /** The steps ahead reach the whole numbers of pages from the entry point on, the steps behind
      those before it. */
  lemma StepsAre(entry: int, page: nat, a: int)
    requires page > 0
    ensures (exists k: nat :: a == Ahead(entry, page, k)) <==> (a - entry) % page == 0 && a >= entry
    ensures (exists k: nat :: a == Behind(entry, page, k)) <==> (a - entry) % page == 0 && a <= entry
  {
    hide Ahead, Behind;
    forall k: nat
      ensures (Ahead(entry, page, k) - entry) % page == 0 && Ahead(entry, page, k) >= entry
      ensures (Behind(entry, page, k) - entry) % page == 0 && Behind(entry, page, k) <= entry
    {
      StepIs(entry, page, k);
    }
    if (a - entry) % page == 0 {
      var m := (a - entry) / page;
      if a >= entry {
        StepTo(entry, page, a, m);
        assert m >= 0 && a == Ahead(entry, page, m);
      }
      if a <= entry {
        StepBack(entry, page, a, m);
        assert -m >= 0 && a == Behind(entry, page, -m);
      }
    }
  }

  lemma StepIs(entry: int, page: nat, k: nat)
    requires page > 0
    ensures (Ahead(entry, page, k) - entry) % page == 0 && Ahead(entry, page, k) >= entry
    ensures (Behind(entry, page, k) - entry) % page == 0 && Behind(entry, page, k) <= entry
  {
    Multiple(page, k);
    Multiple(page, -(k as int));
    assert Behind(entry, page, k) - entry == -(k as int) * page;
  }

  lemma StepTo(entry: int, page: nat, a: int, m: int)
    requires page > 0 && m == (a - entry) / page && (a - entry) % page == 0 && a >= entry
    ensures m >= 0 && a == Ahead(entry, page, m)
  {
    assert a - entry == m * page;
    Multiple(page, m);
  }

  lemma StepBack(entry: int, page: nat, a: int, m: int)
    requires page > 0 && m == (a - entry) / page && (a - entry) % page == 0 && a <= entry
    ensures m <= 0 && a == Behind(entry, page, -m)
  {
    assert a - entry == m * page;
    Multiple(page, m);
    assert -m * page == -(page * m);
  }

  lemma Multiple(page: nat, m: int)
    requires page > 0
    ensures (page * m) % page == 0 && (m * page) % page == 0 && page * m == m * page
    ensures (m >= 0 ==> page * m >= 0) && (m <= 0 ==> page * m <= 0) && (page * m == 0 ==> m == 0)
    ensures (page * m > 0 ==> m > 0) && (page * m < 0 ==> m < 0)
  {
    ModUnique(page * m, page, m, 0);
    Sign(page, m);
    Sign(page, m - 1);
    Sign(page, m + 1);
  }

  /** The search fails if and only if no such address is free. */
  lemma FailsIffNoneFree(entry: int, page: nat, minApp: int, maxApp: int, free: int -> bool)
    requires page > 0
    ensures (forall k: nat :: !Hit(entry, page, Low(entry, minApp), High(entry, maxApp), free, k)) <==>
      forall a :: Tried(entry, page, Low(entry, minApp), High(entry, maxApp), a) ==> !free(a)
  {
    var lo, hi := Low(entry, minApp), High(entry, maxApp);
    forall k: nat | Hit(entry, page, lo, hi, free, k)
      ensures exists a :: Tried(entry, page, lo, hi, a) && free(a)
    {
      var a := if HitAhead(entry, page, hi, free, k) then Ahead(entry, page, k) else Behind(entry, page, k);
      assert Tried(entry, page, lo, hi, a);
    }
    forall a | Tried(entry, page, lo, hi, a) && free(a)
      ensures exists k: nat :: Hit(entry, page, lo, hi, free, k)
    {
      var k: nat :| (a == Ahead(entry, page, k) && a < hi) || (a == Behind(entry, page, k) && a > lo);
      assert Hit(entry, page, lo, hi, free, k);
    }
  }

  /** LhAllocateMemoryEx; `free` says at which addresses an allocation succeeds. The page
      found is the one with the fewest steps, ahead before behind. */
  method LhAllocateMemoryEx(entry: int, page: nat, minApp: int, maxApp: int, free: int -> bool)
    returns (res: Option<int>)
    requires page > 0
    ensures var lo, hi := Low(entry, minApp), High(entry, maxApp);
      match res
      case None => forall k: nat :: !Hit(entry, page, lo, hi, free, k)
      case Some(a) => exists k: nat ::
        && Hit(entry, page, lo, hi, free, k) && (forall i: nat :: i < k ==> !Hit(entry, page, lo, hi, free, i))
        && a == if HitAhead(entry, page, hi, free, k) then Ahead(entry, page, k) else Behind(entry, page, k)
    ensures res.Some? ==> Tried(entry, page, Low(entry, minApp), High(entry, maxApp), res.value) && free(res.value)
  {
    var lo, hi := Low(entry, minApp), High(entry, maxApp);
    var index := 0;
    ghost var k: nat := 0;
    while true
      invariant index == k * page
      invariant forall i: nat :: i < k ==> !Hit(entry, page, lo, hi, free, i)
      decreases if hi - entry > entry - lo then hi - entry - index else entry - lo - index
    {
      var end := true;
      if entry + index < hi {
        if free(entry + index) {
          assert HitAhead(entry, page, hi, free, k);
          return Some(entry + index);
        }
        end := false;
      }
      if entry - index > lo {
        if free(entry - index) {
          assert HitBehind(entry, page, lo, free, k);
          return Some(entry - index);
        }
        end := false;
      }
      if end {
        forall i: nat
          ensures !Hit(entry, page, lo, hi, free, i)
        {
          StepsGrow(page, k, i);
        }
        return None;
      }
      assert !Hit(entry, page, lo, hi, free, k);
      StepsGrow(page, k, k + 1);
      index := index + page;
      k := k + 1;
    }
  }

  lemma StepsGrow(page: nat, k: nat, i: nat)
    ensures i >= k ==> i * page >= k * page
    ensures (k + 1) * page == k * page + page
  {
    if i >= k {
      assert i * page == k * page + (i - k) * page;
    }
  }

  /** For page sizes that are multiples of 4096, every page the search returns is within
      0x7FFFF000 of the entry point. */
  lemma TriedIsNear(entry: int, pages: nat, minApp: int, maxApp: int, a: int)
    requires pages > 0 && minApp <= entry <= maxApp
    requires Tried(entry, 4096 * pages, Low(entry, minApp), High(entry, maxApp), a)
    ensures -0x7FFF_F000 <= a - entry <= 0x7FFF_F000
  {
    var k: nat :| (a == Ahead(entry, 4096 * pages, k) && a < High(entry, maxApp))
      || (a == Behind(entry, 4096 * pages, k) && a > Low(entry, minApp));
    var n := k * pages;
    assert k * (4096 * pages) == 4096 * n;
  }

  /** Sizes of the hook record and of the trampoline behind it: with the relocated code and
      room for a jump they end before the execution counter in the middle of the page. */
  predicate SizesFit(record: nat, trampoline: nat) { record + trampoline + 39 + 16 <= 2048 }

  /** The jump into the trampoline, the jump back behind the relocated code and every
      address delta of the relocation fit 32 bits whenever the hook stands on a page the
      search returned: LhAllocateHook and LhInstallHook never find an entry point out of
      reach. */
  lemma NeverOutOfReach(dec: Decoder, mem: Memory, j: Job, buffer: seq<Byte>, pages: nat, minApp: int, maxApp: int,
                        hook: int, record: nat, trampoline: nat, a: int, r: int)
    requires SoundCode(dec, mem, j.ep, j.ep + j.size) && IsEntrySize(dec, mem, j) && |buffer| >= 100
    requires pages > 0 && minApp <= j.ep <= maxApp
    requires Tried(j.ep, 4096 * pages, Low(j.ep, minApp), High(j.ep, maxApp), hook)
    requires SizesFit(record, trampoline) && j.base == hook + record + trampoline
    requires Relocated(dec, mem, j, Start(j, buffer)).Done?
    requires j.ep <= a < j.ep + j.size && j.base <= r <= j.base + Relocated(dec, mem, j, Start(j, buffer)).size
    ensures Fits32(hook + record - (j.ep + 5))
    ensures Fits32(j.ep + j.size - (j.base + Relocated(dec, mem, j, Start(j, buffer)).size + 5))
    ensures Fits32(r - a)
  {
    hide SoundCode, Relocated, Tried, IsEntrySize;
    TriedIsNear(j.ep, pages, minApp, maxApp, hook);
    EntryIsShort(dec, mem, j);
    WalkStarts(dec, mem, j, buffer);
    RelocationFits(dec, mem, j, Start(j, buffer), 0);
  }

  /** The assertion of LhRelocateEntryPoint on the entry size. */
  lemma EntryIsShort(dec: Decoder, mem: Memory, j: Job)
    requires SoundCode(dec, mem, j.ep, j.ep + j.size) && IsEntrySize(dec, mem, j)
    ensures 5 <= j.size < 20
  {
    hide SoundAt, At;
    RoundCovers(dec, mem, j.ep, 5);
    SoundPrefix(dec, mem, j.ep, j.ep + j.size, j.ep + 5);
    RoundIsLeastBoundary(dec, mem, j.ep, 5);
  }

  lemma {:induction false} RoundCovers(dec: Decoder, mem: Memory, a: int, need: int)
    ensures var r := Round(dec, mem, a, need); r.Some? ==> r.value >= need
    decreases need
  {
    if need > 0 && At(dec, mem, a).len > 0 {
      RoundCovers(dec, mem, a + At(dec, mem, a).len, need - At(dec, mem, a).len);
    }
  }

  lemma {:induction false} SoundPrefix(dec: Decoder, mem: Memory, a: int, end: int, stop: int)
    requires SoundCode(dec, mem, a, end) && stop <= end
    ensures SoundCode(dec, mem, a, stop)
    decreases stop - a
  {
    hide SoundAt, At;
    if a < stop {
      if mem(a) == 0x67 {
        SoundPrefix(dec, mem, a + 1, end, stop);
      }
      if At(dec, mem, a).len > 0 {
        SoundPrefix(dec, mem, a + At(dec, mem, a).len, end, stop);
      }
    }
  }
}
