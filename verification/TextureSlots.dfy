/** The hand-off's code updated in place: CaptureTex on the producer's side, the slot choice
    and texture cache of VideoEncoder on the consumer's, against the steps of Handoff. */
module TextureSlots {
  import opened Wrappers
  import opened Handoff

  class TextureSlots {
    var frameCount: nat
    var textureId: nat
    var textures: map<nat, Texture>
    const own: array<Option<nat>>
    const slots: array<Slot>
    const cache: array<Option<Cached>>
    ghost var done: seq<Frame>

    ghost predicate Valid()
      reads this
    {
      own.Length == 2 && slots.Length == 2 && cache.Length == 2
    }

    /** The state while neither side is inside a call. */
    ghost function State(): (w: World)
      requires Valid()
      reads this, own, slots, cache
      ensures Shaped(w)
    {
      World(frameCount, textureId, textures, own[..], slots[..], Idle, done, cache[..], Away)
    }

    constructor ()
      ensures Valid() && State() == START
    {
      frameCount, textureId, textures, done := 0, 0, map[], [];
      own := new Option<nat>[2](_ => None);
      slots := new Slot[2](_ => Slot(None, 0));
      cache := new Option<Cached>[2](_ => None);
      new;
      assert own[..] == [None, None] && cache[..] == [None, None] && slots[..] == [Slot(None, 0), Slot(None, 0)];
    }

    /** CaptureTex::ShareTexture; `created` tells whether the device can make a texture. */
    method ShareTexture(f: Frame, created: bool) returns (ok: bool)
      requires Valid()
      modifies this`textureId, this`textures, own, slots
      ensures Valid()
      ensures var w := old(State()).(phase := Acquired(f)); var fits := Fits(w, Parity(frameCount), f.size);
        ok == (fits || created) &&
        State() == if !ok then old(State()) else
          var s := Sharing(w);
          s.(textures := WithPixels(s, Some(f.pixels)), phase := Idle)
    {
      var index := Parity(frameCount);
      ghost var w := State().(phase := Acquired(f));
      if own[index].None? || own[index].value !in textures || textures[own[index].value].size != f.size {
        if !created { return false; }
        own[index] := Some(textureId);
        textures := textures[textureId := Texture(f.size, None)];
        slots[index] := slots[index].(id := Some(textureId));
        textureId := textureId + 1;
        assert own[..] == w.own[index := Some(w.nextId)];
        assert slots[..] == w.slots[index := w.slots[index].(id := Some(w.nextId))];
      }
      textures := textures[own[index].value := textures[own[index].value].(pixels := Some(f.pixels))];
      ok := true;
    }

    /** Capture, for a frame acquired at its tick: the picture, then the timestamp, then the
        count. */
    method Capture(f: Frame, created: bool) returns (ok: bool)
      requires Valid()
      modifies this, own, slots
      ensures Valid() && (ok || State() == old(State()))
      ensures ok ==> State() == Captured(old(State()), f)
    {
      ok := ShareTexture(f, created);
      if !ok { return; }
      var index := Parity(frameCount);
      ghost var was := slots[..];
      slots[index] := slots[index].(timestamp := f.tick);
      assert slots[..] == was[index := was[index].(timestamp := f.tick)];
      done := done + [f];
      frameCount := frameCount + 1;
    }

    /** VideoEncoder::GetSharedTexture up to the texture it will read; `found` tells whether
        the named texture could be opened. */
    method GetSharedTexture(found: bool) returns (index: nat, texture: Option<nat>)
      requires Valid() && done != []
      modifies cache
      ensures Valid() && index == Choose(old(State())) < 2
      ensures var v := Got(old(State()), found); State() == v.(reader := Away) && texture == InHand(v)
    {
      hide Step, Got, InHand;
      ghost var w := State();
      index := if slots[0].timestamp < slots[1].timestamp then 1 else 0;
      GotIs(w, found);
      if cache[index].None? || cache[index].value.id != slots[index].id {
        var name := slots[index].id;
        if !found || name.None? || name.value !in textures { return index, None; }
        cache[index] := Some(Cached(slots[index].id, name.value));
        assert cache[..] == w.cache[index := Some(Cached(name, name.value))];
      }
      texture := Some(cache[index].value.texture);
    }
  }

  /** The consumer's steps up to the texture it reads, with nothing in between. */
  function Got(w: World, found: bool): (v: World)
    requires Shaped(w) && w.reader.Away? && w.done != []
    ensures Shaped(v)
  {
    var p := Step(w, Pick);
    var c := Step(p, Compare);
    if c.reader.Holding? then c
    else
      var o := Step(Step(c, Name), Open(found));
      if o.reader.Opened? then Step(o, Record) else o
  }

  /** The texture the consumer reads from. */
  function InHand(v: World): (id: Option<nat>)
    requires Shaped(v)
  {
    if v.reader.Holding? && v.reader.index < 2 && v.cache[v.reader.index].Some?
      then Some(v.cache[v.reader.index].value.texture) else None
  }

  lemma GotIs(w: World, found: bool)
    requires Shaped(w) && w.reader.Away? && w.done != []
    ensures var v, i := Got(w, found), Choose(w); var name := w.slots[i].id;
      && (Matches(w, i) ==> v.(reader := Away) == w && InHand(v) == Some(w.cache[i].value.texture))
      && (!Matches(w, i) && found && name.Some? && name.value in w.textures ==>
           v.(reader := Away) == w.(cache := w.cache[i := Some(Cached(name, name.value))])
           && InHand(v) == Some(name.value))
      && (!Matches(w, i) && !(found && name.Some? && name.value in w.textures) ==>
           v.(reader := Away) == w && InHand(v) == None)
  {
  }

  /** One undisturbed Capture. */
  ghost function Captured(w: World, f: Frame): (r: World)
    requires Shaped(w) && w.phase.Idle?
  {
    var s := Sharing(w.(phase := Acquired(f)));
    var i := Parity(w.count);
    s.(textures := WithPixels(s, Some(f.pixels)), slots := s.slots[i := s.slots[i].(timestamp := f.tick)],
       done := w.done + [f], count := w.count + 1, phase := Idle)
  }

  lemma RunFrom(w: World, ev: Event, evs: seq<Event>)
    requires Inv(w) && Enabled(w, ev) && Seated(w) && Inv(Step(w, ev)) && LegalRun(Step(w, ev), evs)
    ensures LegalRun(w, [ev] + evs) && Run(w, [ev] + evs) == Run(Step(w, ev), evs)
  {
    assert ([ev] + evs)[1..] == evs;
  }

  lemma ProducerStep(w: World, ev: Event)
    requires Inv(w) && Enabled(w, ev)
    requires (ev.Begin? || ev.Share? || ev.CopyStarts? || ev.CopyEnds? || ev.Stamp? || ev.Count?)
    ensures Shaped(w) && Seated(w) && Inv(Step(w, ev)) && Step(w, ev).reader == w.reader
    ensures var v := Step(w, ev);
      match ev
      case Begin(f) => v.phase == Acquired(f)
      case Share => v.phase == Shared(w.phase.frame)
      case CopyStarts => v.phase == Copying(w.phase.frame)
      case CopyEnds => v.phase == Copied(w.phase.frame)
      case Stamp => v.phase == Stamped
      case _ => v.phase == Idle
  {
    StepKeeps(w, ev);
  }

  lemma CopyTwice(w: World)
    requires Inv(w) && w.phase.Shared? && Seated(w) && Inv(Step(w, CopyStarts))
    requires Enabled(Step(w, CopyStarts), CopyEnds)
    ensures Step(Step(w, CopyStarts), CopyEnds)
      == w.(textures := WithPixels(w, Some(w.phase.frame.pixels)), phase := Copied(w.phase.frame))
  {
    assert Shaped(w);
    hide Inv;
  }

  /** The second half of a Capture. */
  ghost function Finished(w: World): (r: World)
    requires Shaped(w) && w.phase.Copying?
  {
    var i, f := Parity(w.count), w.phase.frame;
    w.(textures := WithPixels(w, Some(f.pixels)), slots := w.slots[i := w.slots[i].(timestamp := f.tick)],
       done := w.done + [f], count := w.count + 1, phase := Idle)
  }

  lemma FinishedIsRun(w: World)
    requires Inv(w) && w.phase.Copying?
    ensures var evs := [CopyEnds] + ([Stamp] + ([Count] + [])); LegalRun(w, evs) && Run(w, evs) == Finished(w)
  {
    assert Shaped(w);
    hide Inv, Run, LegalRun, WithPixels;
    ProducerStep(w, CopyEnds);
    var w1 := Step(w, CopyEnds);
    ProducerStep(w1, Stamp);
    var w2 := Step(w1, Stamp);
    ProducerStep(w2, Count);
    var w3 := Step(w2, Count);
    assert w3 == Finished(w);
    hide Step, Finished;
    NoSteps(w3);
    RunFrom(w2, Count, []);
    RunFrom(w1, Stamp, [Count] + []);
    RunFrom(w, CopyEnds, [Stamp] + ([Count] + []));
  }

  /** A Capture, whatever the consumer is at, is the run of the producer's steps in their order. */
  lemma CapturedIsRun(w: World, f: Frame)
    requires Inv(w) && w.phase.Idle? && f.tick > LastTick(w)
    ensures var evs := [Begin(f)] + ([Share] + ([CopyStarts] + ([CopyEnds] + ([Stamp] + ([Count] + [])))));
      LegalRun(w, evs) && Run(w, evs) == Captured(w, f)
  {
    assert Shaped(w);
    hide Inv, Run, LegalRun, LastTick, Sharing, WithPixels;
    ProducerStep(w, Begin(f));
    var w1 := Step(w, Begin(f));
    ProducerStep(w1, Share);
    var w2 := Step(w1, Share);
    ProducerStep(w2, CopyStarts);
    var w3 := Step(w2, CopyStarts);
    ProducerStep(w3, CopyEnds);
    CopyTwice(w2);
    assert Finished(w3) == Captured(w, f);
    hide Step, Captured, Finished;
    FinishedIsRun(w3);
    var evs := [CopyEnds] + ([Stamp] + ([Count] + []));
    RunFrom(w2, CopyStarts, evs);
    RunFrom(w1, Share, [CopyStarts] + evs);
    RunFrom(w, Begin(f), [Share] + ([CopyStarts] + evs));
  }

  lemma NoSteps(w: World)
    requires Inv(w)
    ensures LegalRun(w, []) && Run(w, []) == w
  {
  }
}
