/** When the consumer's cache lies: the slot's id is read again after the texture was opened,
    so a texture replaced in between is kept under the id of the new one. */
module HandoffLimits {
  import opened Wrappers
  import opened Handoff
  import opened TextureSlots

  /** This step replaces the texture of slot i. */
  predicate Replaces(w: World, ev: Event, i: nat)
    requires Shaped(w)
  {
    ev.Share? && w.phase.Acquired? && Parity(w.count) == i && !Fits(w, i, w.phase.frame.size)
  }

  ghost predicate ReplacedIn(w: World, evs: seq<Event>, i: nat)
    requires Inv(w) && LegalRun(w, evs)
    decreases |evs|
  {
    evs != [] && (StepKeeps(w, evs[0]); Replaces(w, evs[0], i) || ReplacedIn(Step(w, evs[0]), evs[1..], i))
  }

  // ---- between naming and recording ----------------------------------------

  lemma InvSeated(w: World)
    requires Inv(w)
    ensures Shaped(w) && Seated(w)
  {
  }

  lemma IdStep(w: World, ev: Event, i: nat)
    requires Inv(w) && Enabled(w, ev) && i < 2
    ensures Shaped(w) && Seated(w)
    ensures var v := Step(w, ev); Shaped(v) && v.nextId >= w.nextId
    ensures var v := Step(w, ev); Replaces(w, ev, i) ==> v.slots[i].id == Some(w.nextId) && v.nextId > w.nextId
    ensures var v := Step(w, ev); !Replaces(w, ev, i) ==> v.slots[i].id == w.slots[i].id
  {
    hide TimesOk, WorkOk, FramesOk, ReaderOk, KnownOk;
    InvSeated(w);
  }

  /** A slot keeps its id until it is replaced, and then has one that was never used. */
  lemma {:induction false} IdRun(w: World, evs: seq<Event>, i: nat)
    requires Inv(w) && LegalRun(w, evs) && i < 2
    ensures Shaped(w) && Shaped(Run(w, evs))
    ensures var v := Run(w, evs);
      && v.nextId >= w.nextId
      && (!ReplacedIn(w, evs, i) ==> v.slots[i].id == w.slots[i].id)
      && (ReplacedIn(w, evs, i) ==> v.slots[i].id.Some? && v.slots[i].id.value >= w.nextId)
    decreases |evs|
  {
    assert Shaped(w) by { hide TimesOk, WorkOk, FramesOk, ReaderOk, KnownOk; }
    hide Inv, Step, Enabled, Replaces;
    if evs != [] {
      StepKeeps(w, evs[0]);
      IdStep(w, evs[0], i);
      IdRun(Step(w, evs[0]), evs[1..], i);
    }
  }

  /** The consumer is on its way with the texture of that name. */
  predicate Carries(w: World, i: nat, name: Option<nat>) {
    match w.reader
    case Named(j, _, n) => j == i && n == name
    case Opened(j, _, t) => j == i && Some(t) == name
    case _ => w.reader.Away?
  }

  lemma {:induction false} CarriesOn(w: World, evs: seq<Event>, i: nat, name: Option<nat>)
    requires Inv(w) && LegalRun(w, evs) && Carries(w, i, name)
    requires forall ev :: ev in evs ==> ev.Open? || !Reads(ev)
    ensures Carries(Run(w, evs), i, name)
    decreases |evs|
  {
    if evs != [] {
      StepKeeps(w, evs[0]);
      CarriesStep(w, evs[0], i, name);
      hide Inv, Step, Enabled, Carries;
      CarriesOn(Step(w, evs[0]), evs[1..], i, name);
    }
  }

  lemma CarriesStep(w: World, ev: Event, i: nat, name: Option<nat>)
    requires Inv(w) && Enabled(w, ev) && Carries(w, i, name) && (ev.Open? || !Reads(ev))
    ensures Shaped(w) && Seated(w) && Carries(Step(w, ev), i, name)
  {
    hide TimesOk, WorkOk, FramesOk, KnownOk;
  }

  /** The texture the consumer keeps is the slot's if and only if the producer has not replaced
      the slot's texture between the moment the consumer read its name and the moment it
      recorded the id; the id it records is the slot's in any case. */
  lemma RecordedIffNotReplaced(w: World, evs: seq<Event>)
    requires Inv(w) && Enabled(w, Name) && Shaped(w) && Seated(w)
    requires Inv(Step(w, Name)) && LegalRun(Step(w, Name), evs) && forall ev :: ev in evs ==> ev.Open? || !Reads(ev)
    requires Enabled(Run(Step(w, Name), evs), Record)
    ensures var u, i := Run(Step(w, Name), evs), w.reader.index; Shaped(u) && Seated(u) && i < 2
    ensures var u, i := Run(Step(w, Name), evs), w.reader.index; var v := Step(u, Record);
      && Matches(v, i)
      && (Some(v.cache[i].value.texture) == v.slots[i].id <==> !ReplacedIn(Step(w, Name), evs, i))
      && (Fooled(v, i) <==> ReplacedIn(Step(w, Name), evs, i))
  {
    var n, i := Step(w, Name), w.reader.index;
    var name := w.slots[i].id;
    IdRun(n, evs, i);
    CarriesOn(n, evs, i, name);
    assert name.Some? && name.value < w.nextId && n.nextId == w.nextId && n.slots == w.slots;
    hide Run, LegalRun, ReplacedIn, TimesOk, WorkOk, FramesOk;
  }

  // ---- over whole runs -----------------------------------------------------

  /** The producer replaces a slot's texture while the consumer opens the old one. */
  predicate Disturbs(w: World, ev: Event)
    requires Shaped(w)
  {
    (w.reader.Named? || w.reader.Opened?) && Replaces(w, ev, w.reader.index)
  }

  ghost predicate Undisturbed(w: World, evs: seq<Event>)
    requires Inv(w) && LegalRun(w, evs)
    decreases |evs|
  {
    evs != [] ==> (StepKeeps(w, evs[0]); !Disturbs(w, evs[0]) && Undisturbed(Step(w, evs[0]), evs[1..]))
  }

  /** Every cached texture is the one its id names. */
  predicate Honest(w: World)
    requires Shaped(w) && Seated(w)
  {
    && (forall i :: 0 <= i < 2 && w.cache[i].Some? ==> w.cache[i].value.id == Some(w.cache[i].value.texture))
    && (w.reader.Named? ==> w.reader.name == w.slots[w.reader.index].id)
    && (w.reader.Opened? ==> Some(w.reader.texture) == w.slots[w.reader.index].id)
  }

  lemma HonestStep(w: World, ev: Event)
    requires Inv(w) && Enabled(w, ev) && Shaped(w) && Seated(w) && Honest(w) && !Disturbs(w, ev)
    ensures Shaped(Step(w, ev)) && Seated(Step(w, ev)) && Honest(Step(w, ev))
  {
    hide Inv, Sharing, WithPixels, Fits, Parity, Choose;
    StepKeeps(w, ev);
    InvSeated(Step(w, ev));
    if w.reader.Named? || w.reader.Opened? {
      IdStep(w, ev, w.reader.index);
    }
  }

  lemma {:induction false} HonestRun(w: World, evs: seq<Event>)
    requires Inv(w) && LegalRun(w, evs) && Undisturbed(w, evs) && Shaped(w) && Seated(w) && Honest(w)
    ensures var v := Run(w, evs); Shaped(v) && Seated(v) && Honest(v)
    decreases |evs|
  {
    hide Inv, Step, Enabled, Honest, Disturbs;
    if evs != [] {
      StepKeeps(w, evs[0]);
      HonestStep(w, evs[0]);
      HonestRun(Step(w, evs[0]), evs[1..]);
    }
  }

  /** If no replacement ever falls into such an opening, the consumer is never fooled. */
  lemma NeverFooled(evs: seq<Event>, i: nat)
    requires LegalRun(START, evs) && Undisturbed(START, evs) && i < 2
    ensures Shaped(Run(START, evs)) && !Fooled(Run(START, evs), i)
  {
    HonestRun(START, evs);
  }

  /** Then what the consumer holds is always the frame that was the last completed one when it
      picked, whole, as long as the producer has completed at most one frame more and not begun to
      write another. */
  lemma UndisturbedDelivers(before: seq<Event>, after: seq<Event>)
    requires LegalRun(START, before) && Undisturbed(START, before) && Enabled(Run(START, before), Pick)
    requires var w := Step(Run(START, before), Pick); Inv(w) && LegalRun(w, after)
    requires forall ev :: ev in after ==> !ev.Pick?
    ensures var w := Run(START, before); HoldsPicked(w, Run(Step(w, Pick), after))
  {
    NeverFooled(before, 0);
    NeverFooled(before, 1);
    HandOff(before, after);
    DeliversPicked(Run(START, before), Run(Step(Run(START, before), Pick), after));
  }

  /** Holding a texture in v, the consumer holds the size and pixels of the last frame completed
      in w, unless the producer has gone too far. */
  predicate HoldsPicked(w: World, v: World) {
    var n := |w.done|;
    v.reader.Holding? && |v.done| <= n + 1 && (|v.done| == n + 1 ==> !Writing(v)) ==>
      && n > 0 && v.reader.index < |v.cache| && v.cache[v.reader.index].Some?
      && var id := v.cache[v.reader.index].value.texture;
      && id in v.textures && v.textures[id].size == w.done[n - 1].size
      && v.textures[id].pixels == Some(w.done[n - 1].pixels)
  }

  lemma DeliversPicked(w: World, v: World)
    requires Shaped(w) && Shaped(v) && 0 < |w.done| <= |v.done| && Delivers(w, v) && !Fooled(w, Choose(w))
    ensures HoldsPicked(w, v)
  {
    hide Fooled;
  }

  // ---- what a fooled consumer reads ----------------------------------------

  /** A texture that is no slot's any more keeps its picture. */
  lemma OldStep(w: World, ev: Event, id: nat)
    requires Inv(w) && Enabled(w, ev) && Shaped(w) && Seated(w) && id in w.textures
    requires Some(id) != w.own[0] && Some(id) != w.own[1]
    ensures var v := Step(w, ev);
      Shaped(v) && id in v.textures && v.textures[id] == w.textures[id] && Some(id) != v.own[0] && Some(id) != v.own[1]
  {
    hide TimesOk, WorkOk, FramesOk, ReaderOk, KnownOk;
  }

  /** The consumer keeps texture id under the slot's id, and is not opening another. */
  predicate Stuck(w: World, i: nat, id: nat)
    requires Shaped(w) && i < 2
  {
    && Fooled(w, i) && w.cache[i].value.texture == id && id in w.textures
    && Some(id) != w.own[0] && Some(id) != w.own[1]
    && (w.reader.Stale? || w.reader.Named? || w.reader.Opened? ==> w.reader.index != i)
  }

  lemma StuckStep(w: World, ev: Event, i: nat, id: nat)
    requires Inv(w) && Enabled(w, ev) && Shaped(w) && Seated(w) && i < 2 && Stuck(w, i, id) && !Replaces(w, ev, i)
    ensures var v := Step(w, ev); Shaped(v) && Stuck(v, i, id) && v.textures[id] == w.textures[id]
  {
    IdStep(w, ev, i);
    OldStep(w, ev, id);
    hide Inv, WithPixels, Fits, Parity;
  }

  /** A fooled consumer reads the same old picture from the slot until its texture is replaced
      again. */
  lemma {:induction false} StuckRun(w: World, evs: seq<Event>, i: nat, id: nat)
    requires Inv(w) && LegalRun(w, evs) && Shaped(w) && i < 2 && Stuck(w, i, id) && !ReplacedIn(w, evs, i)
    ensures var v := Run(w, evs); Shaped(v) && Stuck(v, i, id) && v.textures[id] == w.textures[id]
    decreases |evs|
  {
    hide Inv, Step, Enabled, Stuck, Replaces;
    if evs != [] {
      StepKeeps(w, evs[0]);
      StuckStep(w, evs[0], i, id);
      StuckRun(Step(w, evs[0]), evs[1..], i, id);
    }
  }

  // ---- a run that fools it -------------------------------------------------

  lemma {:induction false} RunJoin(w: World, a: seq<Event>, b: seq<Event>)
    requires Inv(w) && LegalRun(w, a) && LegalRun(Run(w, a), b)
    ensures LegalRun(w, a + b) && Run(w, a + b) == Run(Run(w, a), b)
    decreases |a|
  {
    hide Inv, Step, Enabled;
    if a == [] {
      assert a + b == b;
    } else {
      StepKeeps(w, a[0]);
      RunJoin(Step(w, a[0]), a[1..], b);
      assert (a + b)[1..] == a[1..] + b;
    }
  }

  lemma OneStep(w: World, ev: Event)
    requires Inv(w) && Enabled(w, ev)
    ensures Shaped(w) && Seated(w) && Inv(Step(w, ev)) && LegalRun(w, [ev]) && Run(w, [ev]) == Step(w, ev)
  {
    StepKeeps(w, ev);
    NoSteps(Step(w, ev));
    RunFrom(w, ev, []);
    assert [ev] + [] == [ev];
  }

  /** One Capture as the steps of Handoff. */
  function FrameSteps(f: Frame): (evs: seq<Event>) {
    [Begin(f)] + ([Share] + ([CopyStarts] + ([CopyEnds] + ([Stamp] + ([Count] + [])))))
  }

  /** Frames 1 and 2 are captured while the consumer picks frame 1 and opens its texture; frame
      3 has a new size, and its texture is shared before the consumer records the id. */
  function Mixup(f1: Frame, f2: Frame, f3: Frame): (evs: seq<Event>) {
    FrameSteps(f1) + (([Pick] + ([Compare] + ([Name] + [Open(true)]))) + (FrameSteps(f2)
      + (([Begin(f3)] + ([Share] + ([Record] + [Release]))) + ([CopyStarts] + ([CopyEnds] + ([Stamp] + [Count]))))))
  }

  predicate Growing(f1: Frame, f2: Frame, f3: Frame) {
    0 < f1.tick < f2.tick < f3.tick && f1.size != f3.size
  }

  function FirstDone(f1: Frame): (w: World) {
    World(1, 1, map[0 := Texture(f1.size, Some(f1.pixels))],
          [Some(0), None], [Slot(Some(0), f1.tick), Slot(None, 0)], Idle,
          [f1], [None, None], Away)
  }

  function SecondDone(f1: Frame, f2: Frame): (w: World) {
    World(2, 2, map[0 := Texture(f1.size, Some(f1.pixels)), 1 := Texture(f2.size, Some(f2.pixels))],
          [Some(0), Some(1)], [Slot(Some(0), f1.tick), Slot(Some(1), f2.tick)], Idle,
          [f1, f2], [None, None], Opened(0, 0, 0))
  }

  function ThirdDone(f1: Frame, f2: Frame, f3: Frame): (w: World) {
    World(3, 3, map[0 := Texture(f1.size, Some(f1.pixels)), 1 := Texture(f2.size, Some(f2.pixels)),
                    2 := Texture(f3.size, Some(f3.pixels))],
          [Some(2), Some(1)], [Slot(Some(2), f3.tick), Slot(Some(1), f2.tick)], Idle,
          [f1, f2, f3], [Some(Cached(Some(2), 0)), None], Away)
  }

  lemma FirstFrame(f1: Frame)
    requires f1.tick > 0
    ensures LegalRun(START, FrameSteps(f1)) && Run(START, FrameSteps(f1)) == FirstDone(f1)
  {
    hide Run, LegalRun;
    StartInv();
    CapturedIsRun(START, f1);
    var w, v := Captured(START, f1), FirstDone(f1);
    assert w.own == v.own && w.slots == v.slots && w.textures == v.textures;
    assert w == v;
  }

  lemma FirstOpened(f1: Frame)
    requires Inv(FirstDone(f1)) && f1.tick > 0
    ensures var w, evs := FirstDone(f1), [Pick] + ([Compare] + ([Name] + [Open(true)]));
      LegalRun(w, evs) && Run(w, evs) == w.(reader := Opened(0, 0, 0))
  {
    hide Inv, Run, LegalRun;
    var w := FirstDone(f1);
    OneStep(w, Pick);
    var w1 := Step(w, Pick);
    OneStep(w1, Compare);
    var w2 := Step(w1, Compare);
    OneStep(w2, Name);
    var w3 := Step(w2, Name);
    OneStep(w3, Open(true));
    RunJoin(w2, [Name], [Open(true)]);
    RunJoin(w1, [Compare], [Name] + [Open(true)]);
    RunJoin(w, [Pick], [Compare] + ([Name] + [Open(true)]));
  }

  lemma SecondFrame(f1: Frame, f2: Frame)
    requires Inv(FirstDone(f1).(reader := Opened(0, 0, 0))) && f1.tick < f2.tick
    ensures var w := FirstDone(f1).(reader := Opened(0, 0, 0));
      LegalRun(w, FrameSteps(f2)) && Run(w, FrameSteps(f2)) == SecondDone(f1, f2)
  {
    hide Run, LegalRun, Inv;
    var w := FirstDone(f1).(reader := Opened(0, 0, 0));
    CapturedIsRun(w, f2);
    assert Captured(w, f2) == SecondDone(f1, f2);
  }

  /** Frame 3's texture is shared and the consumer records. */
  lemma ThirdShared(f1: Frame, f2: Frame, f3: Frame)
    requires Inv(SecondDone(f1, f2)) && Growing(f1, f2, f3)
    ensures var w, evs := SecondDone(f1, f2), [Begin(f3)] + ([Share] + ([Record] + [Release]));
      LegalRun(w, evs) && Run(w, evs) == HalfDone(f1, f2, f3)
  {
    hide Inv, Run, LegalRun;
    var w := SecondDone(f1, f2);
    OneStep(w, Begin(f3));
    var w1 := Step(w, Begin(f3));
    OneStep(w1, Share);
    var w2 := Step(w1, Share);
    OneStep(w2, Record);
    var w3 := Step(w2, Record);
    OneStep(w3, Release);
    RunJoin(w2, [Record], [Release]);
    RunJoin(w1, [Share], [Record] + [Release]);
    RunJoin(w, [Begin(f3)], [Share] + ([Record] + [Release]));
  }

  function HalfDone(f1: Frame, f2: Frame, f3: Frame): (w: World) {
    World(2, 3, map[0 := Texture(f1.size, Some(f1.pixels)), 1 := Texture(f2.size, Some(f2.pixels)),
                    2 := Texture(f3.size, None)],
          [Some(2), Some(1)], [Slot(Some(2), f1.tick), Slot(Some(1), f2.tick)], Shared(f3),
          [f1, f2], [Some(Cached(Some(2), 0)), None], Away)
  }

  lemma ThirdFrame(f1: Frame, f2: Frame, f3: Frame)
    requires Inv(HalfDone(f1, f2, f3))
    ensures var w, evs := HalfDone(f1, f2, f3), [CopyStarts] + ([CopyEnds] + ([Stamp] + [Count]));
      LegalRun(w, evs) && Run(w, evs) == ThirdDone(f1, f2, f3)
  {
    hide Inv, Run, LegalRun;
    var w := HalfDone(f1, f2, f3);
    OneStep(w, CopyStarts);
    var w1 := Step(w, CopyStarts);
    OneStep(w1, CopyEnds);
    var w2 := Step(w1, CopyEnds);
    OneStep(w2, Stamp);
    var w3 := Step(w2, Stamp);
    OneStep(w3, Count);
    RunJoin(w2, [Stamp], [Count]);
    RunJoin(w1, [CopyEnds], [Stamp] + [Count]);
    RunJoin(w, [CopyStarts], [CopyEnds] + ([Stamp] + [Count]));
  }

  /** That run is possible, and ends with the consumer keeping texture 0 under the id of
      texture 2. */
  lemma MixupRuns(f1: Frame, f2: Frame, f3: Frame)
    requires Growing(f1, f2, f3)
    ensures LegalRun(START, Mixup(f1, f2, f3)) && Run(START, Mixup(f1, f2, f3)) == ThirdDone(f1, f2, f3)
  {
    hide Inv, Run, LegalRun;
    StartInv();
    FirstFrame(f1);
    FirstOpened(f1);
    SecondFrame(f1, f2);
    ThirdShared(f1, f2, f3);
    ThirdFrame(f1, f2, f3);
    var a := [Pick] + ([Compare] + ([Name] + [Open(true)]));
    var b := [Begin(f3)] + ([Share] + ([Record] + [Release]));
    var c := [CopyStarts] + ([CopyEnds] + ([Stamp] + [Count]));
    RunJoin(SecondDone(f1, f2), b, c);
    RunJoin(FirstDone(f1).(reader := Opened(0, 0, 0)), FrameSteps(f2), b + c);
    RunJoin(FirstDone(f1), a, FrameSteps(f2) + (b + c));
    RunJoin(START, FrameSteps(f1), a + (FrameSteps(f2) + (b + c)));
  }

  lemma StartInv()
    ensures Inv(START)
  {
  }

  /** After it, for as long as the picture keeps its size, the consumer reads frame 1 whenever
      it reads the first slot, however many frames have been captured there since. */
  lemma OldFrameForever(f1: Frame, f2: Frame, f3: Frame, more: seq<Event>)
    requires Growing(f1, f2, f3) && Inv(ThirdDone(f1, f2, f3)) && LegalRun(ThirdDone(f1, f2, f3), more)
    requires !ReplacedIn(ThirdDone(f1, f2, f3), more, 0)
    ensures var v := Run(ThirdDone(f1, f2, f3), more);
      && Shaped(v) && Fooled(v, 0)
      && (v.reader.Holding? && v.reader.index == 0 ==> InHand(v) == Some(0))
      && 0 in v.textures && v.textures[0] == Texture(f1.size, Some(f1.pixels))
  {
    hide Inv, Run, LegalRun, ReplacedIn;
    StuckRun(ThirdDone(f1, f2, f3), more, 0, 0);
  }
}
