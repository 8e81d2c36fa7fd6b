/** The two-slot hand-off of textures from the captured process to the encoder, as a protocol
    of steps: who writes what in which order, and what the encoder finds. */
module Handoff {
  import opened Wrappers

  /** A captured frame: its tick, the size of its picture and the picture. */
  datatype Frame = Frame(tick: int, size: int, pixels: int)

  /** A shared texture; its pixels are torn while they are being copied. */
  datatype Texture = Texture(size: int, pixels: Option<int>)

  /** A slot in shared memory: the texture's id and the timestamp. */
  datatype Slot = Slot(id: Option<nat>, timestamp: int)

  /** Where the producer is inside one Capture. */
  datatype Phase =
    Idle | Acquired(frame: Frame) | Shared(frame: Frame) | Copying(frame: Frame) | Copied(frame: Frame) | Stamped

  /** What the consumer keeps for a slot: the texture it opened, and the id it read from the
      slot when it had opened it. */
  datatype Cached = Cached(id: Option<nat>, texture: nat)

  /** Where the consumer is inside one GetSharedTexture: it picked the slot of frame number k,
      found its cached id stale, read the slot's id to name the texture, opened that texture,
      and holds the texture to read from. */
  datatype Reader =
    | Away
    | Picked(index: nat, k: nat)
    | Stale(index: nat, k: nat)
    | Named(index: nat, k: nat, name: Option<nat>)
    | Opened(index: nat, k: nat, texture: nat)
    | Holding(index: nat, k: nat)

  /** `own` and `cache` are the textures the producer and the consumer keep for each slot;
      `done` are the frames whose timestamp was written. */
  datatype World = World(count: nat, nextId: nat, textures: map<nat, Texture>, own: seq<Option<nat>>, slots: seq<Slot>,
                         phase: Phase, done: seq<Frame>, cache: seq<Option<Cached>>, reader: Reader)

  const START: World := World(0, 0, map[], [None, None], [Slot(None, 0), Slot(None, 0)], Idle, [], [None, None], Away)

  function Parity(n: nat): (i: nat)
    ensures i < 2
  {
    n % 2
  }

  predicate Shaped(w: World) { |w.own| == |w.slots| == |w.cache| == 2 }

  // ---- the producer's steps ------------------------------------------------

  function LastTick(w: World): (r: int) {
    if w.done == [] then 0 else w.done[|w.done| - 1].tick
  }

  /** Whether the slot's texture can take a picture of this size. */
  predicate Fits(w: World, i: nat, size: int)
    requires Shaped(w) && i < 2
  {
    w.own[i].Some? && w.own[i].value in w.textures && w.textures[w.own[i].value].size == size
  }

  /** ShareTexture up to the copy: a missing or wrongly sized texture is replaced and its id
      published. */
  function Sharing(w: World): (s: World)
    requires Shaped(w) && w.phase.Acquired?
    ensures Shaped(s) && s.phase == Shared(w.phase.frame)
    ensures s.count == w.count && s.done == w.done && s.cache == w.cache && s.reader == w.reader
  {
    var f, i := w.phase.frame, Parity(w.count);
    var v := w.(phase := Shared(f));
    if Fits(w, i, f.size) then v
    else
      v.(textures := w.textures[w.nextId := Texture(f.size, None)], own := w.own[i := Some(w.nextId)],
         slots := w.slots[i := w.slots[i].(id := Some(w.nextId))], nextId := w.nextId + 1)
  }

  function WithPixels(w: World, pixels: Option<int>): (r: map<nat, Texture>)
    requires Shaped(w)
  {
    var id := w.own[Parity(w.count)];
    if id.Some? && id.value in w.textures then w.textures[id.value := w.textures[id.value].(pixels := pixels)]
      else w.textures
  }

  /** Begin .. Count are Capture in its order; a ShareTexture that fails has changed nothing. */
  datatype Event = Begin(frame: Frame) | ShareFails | Share | CopyStarts | CopyEnds | Stamp | Count
                 | Pick | Compare | Name | Open(found: bool) | Record | Release

  predicate Enabled(w: World, ev: Event) {
    match ev
    case Begin(f) => w.phase.Idle? && f.tick > LastTick(w)
    case ShareFails => w.phase.Acquired?
    case Share => w.phase.Acquired?
    case CopyStarts => w.phase.Shared?
    case CopyEnds => w.phase.Copying?
    case Stamp => w.phase.Copied?
    case Count => w.phase.Stamped?
    case Pick => w.reader.Away? && w.done != []
    case Compare => w.reader.Picked?
    case Name => w.reader.Stale?
    case Open(_) => w.reader.Named?
    case Record => w.reader.Opened?
    case Release => w.reader.Holding?
  }

  /** GetSharedTexture's choice: slot 0 unless its timestamp is older. */
  function Choose(w: World): (r: nat)
    requires Shaped(w)
  {
    if w.slots[0].timestamp < w.slots[1].timestamp then 1 else 0
  }

  /** The consumer's cached id is that of the slot. */
  predicate Matches(w: World, i: nat)
    requires Shaped(w) && i < 2
  {
    w.cache[i].Some? && w.cache[i].value.id == w.slots[i].id
  }

  /** The reader's slot is one of the two. */
  predicate Seated(w: World) { w.reader.Away? || w.reader.index < 2 }

  function Step(w: World, ev: Event): (r: World)
    requires Shaped(w) && Enabled(w, ev) && Seated(w)
  {
    match ev
    case Begin(f) => w.(phase := Acquired(f))
    case ShareFails => w.(phase := Idle)
    case Share => Sharing(w)
    case CopyStarts => w.(textures := WithPixels(w, None), phase := Copying(w.phase.frame))
    case CopyEnds => w.(textures := WithPixels(w, Some(w.phase.frame.pixels)), phase := Copied(w.phase.frame))
    case Stamp =>
      var i := Parity(w.count);
      w.(slots := w.slots[i := w.slots[i].(timestamp := w.phase.frame.tick)], done := w.done + [w.phase.frame],
         phase := Stamped)
    case Count => w.(count := w.count + 1, phase := Idle)
    case Pick => w.(reader := Picked(Choose(w), |w.done| - 1))
    case Compare =>
      var i, k := w.reader.index, w.reader.k;
      w.(reader := if Matches(w, i) then Holding(i, k) else Stale(i, k))
    case Name => w.(reader := Named(w.reader.index, w.reader.k, w.slots[w.reader.index].id))
    case Open(found) =>
      var name := w.reader.name;
      w.(reader := if found && name.Some? && name.value in w.textures
                   then Opened(w.reader.index, w.reader.k, name.value) else Away)
    case Record =>
      var i := w.reader.index;
      w.(cache := w.cache[i := Some(Cached(w.slots[i].id, w.reader.texture))], reader := Holding(i, w.reader.k))
    case Release => w.(reader := Away)
  }

  // ---- what every run keeps ------------------------------------------------

  /** The producer is changing the texture of the slot it writes. */
  predicate Writing(w: World) { w.phase.Shared? || w.phase.Copying? || w.phase.Copied? }

  /** Frame k is the last completed one, or the one before and not yet being overwritten. */
  predicate Safe(w: World, k: nat) {
    k < |w.done| <= k + 2 && (|w.done| == k + 2 ==> !Writing(w))
  }

  /** The slot of frame k holds that frame. */
  predicate Holds(w: World, k: nat)
    requires Shaped(w) && k < |w.done|
  {
    var id := w.own[Parity(k)];
    id.Some? && id.value in w.textures && w.textures[id.value] == Texture(w.done[k].size, Some(w.done[k].pixels))
  }

  predicate SlotsOk(w: World) {
    && Shaped(w)
    && (forall i :: 0 <= i < 2 ==> w.slots[i].id == w.own[i])
    && (forall i :: 0 <= i < 2 && w.own[i].Some? ==> w.own[i].value in w.textures)
    && (w.own[0].Some? ==> w.own[0] != w.own[1])
    && (forall id :: id in w.textures ==> id < w.nextId)
  }

  predicate TimesOk(w: World)
    requires Shaped(w)
  {
    && |w.done| == w.count + (if w.phase.Stamped? then 1 else 0)
    && (forall k :: 0 <= k < |w.done| ==> w.done[k].tick > 0)
    && (forall j, k :: 0 <= j < k < |w.done| ==> w.done[j].tick < w.done[k].tick)
    && (forall k :: 0 <= k < |w.done| <= k + 2 ==> w.slots[Parity(k)].timestamp == w.done[k].tick)
    && (|w.done| < 2 ==> w.slots[1].timestamp == 0)
    && (w.done == [] ==> w.slots[0].timestamp == 0)
    && (w.phase.Acquired? || Writing(w) ==> w.phase.frame.tick > LastTick(w))
  }

  /** The texture under the producer's hands. */
  predicate WorkOk(w: World)
    requires Shaped(w)
  {
    Writing(w) ==>
      var id := w.own[Parity(w.count)];
      && id.Some? && id.value in w.textures && w.textures[id.value].size == w.phase.frame.size
      && (w.phase.Copied? ==> w.textures[id.value].pixels == Some(w.phase.frame.pixels))
  }

  predicate FramesOk(w: World)
    requires Shaped(w)
  {
    forall k :: 0 <= k < |w.done| && Safe(w, k) ==> Holds(w, k)
  }

  predicate ReaderOk(w: World)
    requires Shaped(w)
  {
    && (!w.reader.Away? ==> w.reader.k < |w.done| && w.reader.index == Parity(w.reader.k))
    && (w.reader.Named? && Safe(w, w.reader.k) ==> w.reader.name == w.own[w.reader.index])
    && (w.reader.Opened? && Safe(w, w.reader.k) ==> Some(w.reader.texture) == w.own[w.reader.index])
    && (w.reader.Holding? && Safe(w, w.reader.k) ==> Matches(w, w.reader.index))
  }

  /** Every texture the consumer knows of exists. */
  predicate KnownOk(w: World)
    requires Shaped(w)
  {
    && (forall i :: 0 <= i < 2 && w.cache[i].Some? ==> w.cache[i].value.texture in w.textures)
    && (w.reader.Named? && w.reader.name.Some? ==> w.reader.name.value in w.textures)
    && (w.reader.Opened? ==> w.reader.texture in w.textures)
    && (w.reader.Holding? ==> w.reader.index < 2 && w.cache[w.reader.index].Some?)
  }

  predicate Inv(w: World) {
    SlotsOk(w) && TimesOk(w) && WorkOk(w) && FramesOk(w) && ReaderOk(w) && KnownOk(w)
  }

  /** The slot the consumer chooses is that of the last completed frame, which is whole there
      and not being written. */
  lemma PickIsLatest(w: World)
    requires Inv(w) && w.done != []
    ensures var k := |w.done| - 1;
      Choose(w) == Parity(k) && Holds(w, k) && (Writing(w) ==> Parity(w.count) != Choose(w))
  {
    var k := |w.done| - 1;
    assert Safe(w, k);
    assert w.slots[Parity(k)].timestamp == w.done[k].tick;
    if k > 0 {
      assert w.slots[Parity(k - 1)].timestamp == w.done[k - 1].tick < w.done[k].tick;
    }
  }

  lemma ParityTurns(n: nat)
    ensures Parity(n + 1) == 1 - Parity(n) && Parity(n + 2) == Parity(n)
  {
  }

  /** What the producer does to the texture of the slot it writes leaves the last completed
      frame alone. */
  lemma OtherSlotKept(w: World, v: World)
    requires Inv(w) && Shaped(v) && Writing(v) && !w.phase.Stamped? && v.done == w.done && v.count == w.count
    requires v.cache == w.cache && v.reader == w.reader
    requires var i := 1 - Parity(w.count);
      && v.own[i] == w.own[i] && v.slots[i].id == w.slots[i].id
      && (w.own[i].Some? ==> w.own[i].value in v.textures && v.textures[w.own[i].value] == w.textures[w.own[i].value])
    ensures FramesOk(v) && ReaderOk(v)
  {
    if w.done != [] {
      var k := |w.done| - 1;
      ParityTurns(k);
      assert Safe(w, k) && Holds(w, k);
    }
  }

  /** The producer removes no texture. */
  lemma StillKnown(w: World, v: World)
    requires Shaped(w) && Shaped(v) && KnownOk(w) && v.cache == w.cache && v.reader == w.reader
    requires forall id :: id in w.textures ==> id in v.textures
    ensures KnownOk(v)
  {
  }

  lemma SharedSlots(w: World)
    requires Inv(w) && w.phase.Acquired?
    ensures SlotsOk(Sharing(w)) && WorkOk(Sharing(w))
  {
    hide TimesOk, FramesOk, ReaderOk, KnownOk;
  }

  lemma ShareKeeps(w: World)
    requires Inv(w) && w.phase.Acquired?
    ensures Inv(Sharing(w))
  {
    var v := Sharing(w);
    SharedSlots(w);
    OtherSlotKept(w, v);
    StillKnown(w, v);
    hide FramesOk, ReaderOk, WorkOk, SlotsOk, KnownOk;
  }

  lemma CopyKeeps(w: World, ev: Event)
    requires Inv(w) && Enabled(w, ev) && (ev.CopyStarts? || ev.CopyEnds?)
    ensures Shaped(w) && Seated(w) && Inv(Step(w, ev))
  {
    var v := Step(w, ev);
    assert SlotsOk(v) && WorkOk(v);
    OtherSlotKept(w, v);
    StillKnown(w, v);
    hide FramesOk, ReaderOk, WorkOk, SlotsOk, KnownOk;
  }

  lemma StampTimes(w: World)
    requires Inv(w) && w.phase.Copied?
    ensures Shaped(w) && Seated(w) && TimesOk(Step(w, Stamp))
  {
    var v, n := Step(w, Stamp), |w.done|;
    forall k | 0 <= k < |v.done| <= k + 2
      ensures v.slots[Parity(k)].timestamp == v.done[k].tick
    {
      if k < n { ParityTurns(k); }
    }
  }

  lemma StampKeeps(w: World)
    requires Inv(w) && w.phase.Copied?
    ensures Shaped(w) && Seated(w) && Inv(Step(w, Stamp))
  {
    StampTimes(w);
    var v, n := Step(w, Stamp), |w.done|;
    assert n == w.count;
    StillKnown(w, v);
    hide TimesOk, KnownOk;
    forall k | 0 <= k < |v.done| && Safe(v, k)
      ensures Holds(v, k)
    {
      if k < n {
        assert Safe(w, k) && Holds(w, k);
      }
    }
    assert SlotsOk(v) && WorkOk(v);
  }

  lemma QuietKeeps(w: World, ev: Event)
    requires Inv(w) && Enabled(w, ev) && (ev.Begin? || ev.ShareFails? || ev.Count?)
    ensures Shaped(w) && Seated(w) && Inv(Step(w, ev))
  {
    var v := Step(w, ev);
    StillKnown(w, v);
    hide KnownOk;
    assert forall k :: Safe(v, k) ==> Safe(w, k);
    assert forall k :: 0 <= k < |w.done| ==> (Holds(v, k) <==> Holds(w, k));
  }

  /** The consumer writes nothing that the producer keeps. */
  lemma ReaderAlone(w: World, v: World)
    requires Inv(w) && v == w.(cache := v.cache, reader := v.reader) && |v.cache| == 2 && ReaderOk(v) && KnownOk(v)
    ensures Inv(v)
  {
    assert forall k :: 0 <= k < |w.done| ==> (Holds(v, k) <==> Holds(w, k));
    hide ReaderOk, KnownOk, Holds;
  }

  predicate Reads(ev: Event) { ev.Pick? || ev.Compare? || ev.Name? || ev.Open? || ev.Record? || ev.Release? }

  lemma ReaderKeeps(w: World, ev: Event)
    requires Inv(w) && Enabled(w, ev) && Reads(ev)
    ensures Shaped(w) && Seated(w) && Inv(Step(w, ev))
  {
    var v := Step(w, ev);
    if ev.Pick? { PickIsLatest(w); }
    hide TimesOk, WorkOk, FramesOk, Inv;
    ReaderAlone(w, v);
  }

  /** Every single step of producer or consumer keeps the invariant. */
  lemma StepKeeps(w: World, ev: Event)
    requires Inv(w) && Enabled(w, ev)
    ensures Shaped(w) && Seated(w) && Inv(Step(w, ev))
  {
    match ev
    case Share => ShareKeeps(w);
    case CopyStarts => CopyKeeps(w, ev);
    case CopyEnds => CopyKeeps(w, ev);
    case Stamp => StampKeeps(w);
    case Begin(_) => QuietKeeps(w, ev);
    case ShareFails => QuietKeeps(w, ev);
    case Count => QuietKeeps(w, ev);
    case _ => ReaderKeeps(w, ev);
  }

  // ---- runs ----------------------------------------------------------------

  ghost predicate LegalRun(w: World, evs: seq<Event>)
    requires Inv(w)
    decreases |evs|
  {
    evs != [] ==> Enabled(w, evs[0]) && (StepKeeps(w, evs[0]); LegalRun(Step(w, evs[0]), evs[1..]))
  }

  ghost function Run(w: World, evs: seq<Event>): (v: World)
    requires Inv(w) && LegalRun(w, evs)
    ensures Inv(v)
    decreases |evs|
  {
    if evs == [] then w else StepKeeps(w, evs[0]); Run(Step(w, evs[0]), evs[1..])
  }

  lemma StepHistory(w: World, ev: Event)
    requires Inv(w) && Enabled(w, ev)
    ensures Shaped(w) && Seated(w) && w.done <= Step(w, ev).done
    ensures var v := Step(w, ev); !ev.Pick? && !v.reader.Away? ==>
      !w.reader.Away? && w.reader.k == v.reader.k && w.reader.index == v.reader.index
  {
  }

  /** The consumer's cached id is the slot's, but the texture beside it is another. */
  predicate Fooled(w: World, i: nat)
    requires Shaped(w) && i < 2
  {
    w.cache[i].Some? && w.cache[i].value.id == w.slots[i].id && Some(w.cache[i].value.texture) != w.slots[i].id
  }

  /** While the frame picked is safe, the consumer is on its way to the slot's own texture,
      unless it was fooled when it picked. */
  predicate OnWay(w: World, k: nat, i: nat, fooled: bool)
    requires Shaped(w) && i < 2
  {
    !w.reader.Away? ==>
      && w.reader.k == k && w.reader.index == i
      && (Safe(w, k) ==>
           match w.reader
           case Picked(_, _) => Fooled(w, i) == fooled
           case Holding(_, _) => w.cache[i].Some? && (Some(w.cache[i].value.texture) == w.own[i] <==> !fooled)
           case _ => !fooled)
  }

  lemma SafeBefore(w: World, ev: Event, k: nat)
    requires Inv(w) && Enabled(w, ev) && k < |w.done|
    ensures Shaped(w) && Seated(w) && (Safe(Step(w, ev), k) ==> Safe(w, k))
  {
  }

  lemma StaysOnWay(w: World, ev: Event, k: nat, i: nat, fooled: bool)
    requires Inv(w) && Enabled(w, ev) && !ev.Pick? && i == Parity(k) && OnWay(w, k, i, fooled)
    ensures Shaped(w) && Seated(w) && Shaped(Step(w, ev)) && OnWay(Step(w, ev), k, i, fooled)
  {
    var v := Step(w, ev);
    StepHistory(w, ev);
    if !v.reader.Away? {
      SafeBefore(w, ev, k);
      if Safe(v, k) {
        SlotStays(w, ev, k);
        hide TimesOk, FramesOk, WorkOk, Safe;
      }
    }
  }

  /** The slot of a frame that is still safe is not replaced. */
  lemma SlotStays(w: World, ev: Event, k: nat)
    requires Inv(w) && Enabled(w, ev) && k < |w.done|
    ensures Shaped(w) && Seated(w)
    ensures var v := Step(w, ev);
      Safe(v, k) ==> v.own[Parity(k)] == w.own[Parity(k)] && v.slots[Parity(k)].id == w.slots[Parity(k)].id
  {
    if ev.Share? {
      ParityTurns(k);
    }
  }

  lemma {:induction false} RunOnWay(w: World, evs: seq<Event>, k: nat, i: nat, fooled: bool)
    requires Inv(w) && LegalRun(w, evs) && (forall ev :: ev in evs ==> !ev.Pick?)
    requires i == Parity(k) && OnWay(w, k, i, fooled)
    ensures OnWay(Run(w, evs), k, i, fooled) && w.done <= Run(w, evs).done
    decreases |evs|
  {
    hide Inv, Step, OnWay, Enabled;
    if evs != [] {
      StepKeeps(w, evs[0]);
      StepHistory(w, evs[0]);
      StaysOnWay(w, evs[0], k, i, fooled);
      RunOnWay(Step(w, evs[0]), evs[1..], k, i, fooled);
    }
  }

  /** From a pick in w to v: as long as the producer has completed at most one frame more and
      not begun to write another, the texture the consumer holds is the slot's own, and carries
      whole the frame that was the last completed one in w, if and only if the consumer was not
      fooled when it picked. */
  predicate Delivers(w: World, v: World)
    requires Shaped(w) && Shaped(v) && 0 < |w.done| <= |v.done|
  {
    var n, i := |w.done|, Choose(w);
    v.reader.Holding? && |v.done| <= n + 1 && (|v.done| == n + 1 ==> !Writing(v)) ==>
      && v.reader.index == i && v.cache[i].Some?
      && var id := v.cache[i].value.texture;
      && (Some(id) == v.slots[i].id <==> !Fooled(w, i))
      && (!Fooled(w, i) ==>
           id in v.textures && v.textures[id] == Texture(w.done[n - 1].size, Some(w.done[n - 1].pixels)))
  }

  /** Whatever the producer does while the consumer gets its texture. */
  lemma HandOff(before: seq<Event>, after: seq<Event>)
    requires LegalRun(START, before) && Enabled(Run(START, before), Pick)
    requires var w := Step(Run(START, before), Pick); Inv(w) && LegalRun(w, after)
    requires forall ev :: ev in after ==> !ev.Pick?
    ensures var w := Run(START, before); var v := Run(Step(w, Pick), after);
      |w.done| <= |v.done| && Delivers(w, v)
  {
    var w := Run(START, before);
    assert Inv(w) && Shaped(w) && Seated(w);
    hide LegalRun, Inv;
    DeliversFrom(w, after);
  }

  lemma DeliversFrom(w: World, after: seq<Event>)
    requires Inv(w) && Enabled(w, Pick) && Inv(Step(w, Pick)) && LegalRun(Step(w, Pick), after)
    requires forall ev :: ev in after ==> !ev.Pick?
    ensures var v := Run(Step(w, Pick), after); |w.done| <= |v.done| && Delivers(w, v)
  {
    var n, i := |w.done|, Choose(w);
    PickIsLatest(w);
    RunOnWay(Step(w, Pick), after, n - 1, i, Fooled(w, i));
    var v := Run(Step(w, Pick), after);
    assert w.done[n - 1] == v.done[n - 1];
    hide Run, LegalRun, Inv, Fooled, OnWay;
    if v.reader.Holding? && |v.done| <= n + 1 && (|v.done| == n + 1 ==> !Writing(v)) {
      HeldIsFrame(v, n - 1, i, Fooled(w, i));
    }
  }

  lemma HeldIsFrame(v: World, k: nat, i: nat, fooled: bool)
    requires Inv(v) && v.reader.Holding? && Safe(v, k) && i == Parity(k) && OnWay(v, k, i, fooled)
    ensures v.reader.index == i && v.cache[i].Some?
    ensures var id := v.cache[i].value.texture;
      && (Some(id) == v.slots[i].id <==> !fooled)
      && (!fooled ==> id in v.textures && v.textures[id] == Texture(v.done[k].size, Some(v.done[k].pixels)))
  {
    assert Holds(v, k);
    hide TimesOk, WorkOk, FramesOk;
  }

  /** The bound is exact: when the producer then copies a second frame, it writes into the
      texture held if and only if the picture has kept its size and the texture held is the
      slot's own; and then the texture is torn. */
  lemma SecondFrameTears(w: World, f: Frame)
    requires Inv(w) && w.reader.Holding? && w.phase.Idle? && |w.done| == w.reader.k + 2 && Enabled(w, Begin(f))
    ensures Shaped(w) && Seated(w) && w.cache[w.reader.index].Some?
    ensures var k, i := w.reader.k, w.reader.index; var id := w.cache[i].value.texture;
      && id in w.textures
      && var v := Step(Step(Step(w, Begin(f)), Share), CopyStarts);
      && id in v.textures
      && (v.textures[id] != w.textures[id] ==> v.textures[id].pixels.None?)
      && (Some(id) == w.slots[i].id ==> w.textures[id] == Texture(w.done[k].size, Some(w.done[k].pixels)))
      && (v.textures[id] != w.textures[id] <==> f.size == w.done[k].size && Some(id) == w.slots[i].id)
  {
    var k := w.reader.k;
    assert Safe(w, k) && Holds(w, k);
    ParityTurns(k);
    hide FramesOk, TimesOk;
  }
}
