/** A session's outgoing queue on values: GameSession::Write and OnWrite over whole runs. */
module Outbound {
  import opened Bytes
  import opened Framing
  import opened Wrappers

  const AUDIO: Byte := 4
  const VIDEO: Byte := 5

  /** The queue, its flags, the buffers handed to the socket so far and the writes still
      outstanding there. */
  datatype Outbox = Outbox(queue: seq<seq<Byte>>, audioSent: bool, videoSent: bool, wire: seq<seq<Byte>>,
                           outstanding: nat)

  const IDLE: Outbox := Outbox([], false, false, [], 0)

  /** The codec headers the engine holds; empty while there is none. */
  datatype Headers = Headers(audio: seq<Byte>, video: seq<Byte>)

  /** The action byte of a package; a package cut off behind its head reads as the string's
      terminating zero. */
  function Action(buffer: seq<Byte>): (r: Byte) { if |buffer| > HEAD then buffer[HEAD] else 0 }

  function Headed(o: Outbox, buffer: seq<Byte>, h: Headers): (r: seq<Byte>) {
    if Action(buffer) == AUDIO && !o.audioSent then h.audio + buffer
    else if Action(buffer) == VIDEO && !o.videoSent then h.video + buffer
    else buffer
  }

  /** Hands the front of the queue to the socket. */
  function Start(o: Outbox): (r: Outbox)
    requires o.queue != []
  {
    o.(wire := o.wire + [o.queue[0]], outstanding := o.outstanding + 1)
  }

  function Write(o: Outbox, buffer: seq<Byte>, h: Headers): (r: Outbox) {
    if buffer == [] then o
    else
      var p := o.(queue := o.queue + [Headed(o, buffer, h)],
                  audioSent := o.audioSent || Action(buffer) == AUDIO,
                  videoSent := o.videoSent || Action(buffer) == VIDEO);
      if 1 < |p.queue| then p else Start(p)
  }

  /** The completion of an outstanding write. */
  function OnWrite(o: Outbox, failed: bool): (r: Outbox)
    requires o.outstanding > 0 && o.queue != []
  {
    var p := o.(outstanding := o.outstanding - 1);
    if failed then p
    else
      var q := p.(queue := p.queue[1..]);
      if q.queue == [] then q else Start(q)
  }

  // ---- runs ----------------------------------------------------------------

  datatype Event = EWrite(buffer: seq<Byte>, headers: Headers) | EDone(failed: bool)

  ghost predicate Legal(o: Outbox, ev: Event) { ev.EDone? ==> o.outstanding > 0 }

  /** At most one write is outstanding, namely the front of the queue; everything queued so
      far is on the wire or behind that front. After a failure the front stays. */
  ghost predicate Inv(o: Outbox, queued: seq<seq<Byte>>) {
    && o.outstanding <= 1 && (o.outstanding == 1 ==> o.queue != [])
    && (o.queue != [] ==> o.wire != [] && o.wire[|o.wire| - 1] == o.queue[0])
    && o.wire + (if o.queue == [] then [] else o.queue[1..]) == queued
  }

  ghost function Step(o: Outbox, ev: Event): (r: Outbox)
    requires Legal(o, ev) && (o.outstanding > 0 ==> o.queue != [])
  {
    match ev
    case EWrite(b, h) => Write(o, b, h)
    case EDone(failed) => OnWrite(o, failed)
  }

  ghost function Queued(o: Outbox, ev: Event): (r: seq<seq<Byte>>) {
    if ev.EWrite? && ev.buffer != [] then [Headed(o, ev.buffer, ev.headers)] else []
  }

  lemma StepKeeps(o: Outbox, ev: Event, queued: seq<seq<Byte>>)
    requires Inv(o, queued) && Legal(o, ev)
    ensures Inv(Step(o, ev), queued + Queued(o, ev))
    ensures o.wire <= Step(o, ev).wire && |Step(o, ev).wire| <= |o.wire| + 1
  {
  }

  ghost predicate LegalRun(o: Outbox, queued: seq<seq<Byte>>, evs: seq<Event>)
    requires Inv(o, queued)
    decreases |evs|
  {
    evs != [] ==>
      Legal(o, evs[0]) && (StepKeeps(o, evs[0], queued);
        LegalRun(Step(o, evs[0]), queued + Queued(o, evs[0]), evs[1..]))
  }

  /** The outbox and everything queued after a run. */
  ghost function Run(o: Outbox, queued: seq<seq<Byte>>, evs: seq<Event>): (r: (Outbox, seq<seq<Byte>>))
    requires Inv(o, queued) && LegalRun(o, queued, evs)
    ensures Inv(r.0, r.1)
    decreases |evs|
  {
    if evs == [] then (o, queued)
    else
      StepKeeps(o, evs[0], queued);
      Run(Step(o, evs[0]), queued + Queued(o, evs[0]), evs[1..])
  }

  /** Without failures a write is outstanding exactly while something is queued. */
  lemma {:induction false} BusyUntilEmpty(o: Outbox, queued: seq<seq<Byte>>, evs: seq<Event>)
    requires Inv(o, queued) && LegalRun(o, queued, evs) && (o.outstanding == 1 <==> o.queue != [])
    requires forall ev :: ev in evs && ev.EDone? ==> !ev.failed
    ensures var (p, q) := Run(o, queued, evs);
      (p.outstanding == 1 <==> p.queue != []) && (p.outstanding == 0 ==> p.wire == q)
    decreases |evs|
  {
    hide Inv;
    if evs == [] {
      assert Inv(o, queued);
      IdleWire(o, queued);
    } else {
      StepKeeps(o, evs[0], queued);
      StepBusy(o, evs[0], queued);
      BusyUntilEmpty(Step(o, evs[0]), queued + Queued(o, evs[0]), evs[1..]);
    }
  }

  lemma IdleWire(o: Outbox, queued: seq<seq<Byte>>)
    requires Inv(o, queued)
    ensures o.queue == [] ==> o.wire == queued
    ensures o.wire <= queued
  {
  }

  lemma StepBusy(o: Outbox, ev: Event, queued: seq<seq<Byte>>)
    requires Inv(o, queued) && Legal(o, ev) && (o.outstanding == 1 <==> o.queue != []) && (ev.EDone? ==> !ev.failed)
    ensures Step(o, ev).outstanding == 1 <==> Step(o, ev).queue != []
  {
  }

  /** While the queue is stuck without an outstanding write nothing is sent. */
  lemma {:induction false} StuckForGood(o: Outbox, queued: seq<seq<Byte>>, evs: seq<Event>)
    requires Inv(o, queued) && LegalRun(o, queued, evs) && o.outstanding == 0 && o.queue != []
    ensures Run(o, queued, evs).0.wire == o.wire
    decreases |evs|
  {
    hide Inv;
    if evs != [] {
      StepKeeps(o, evs[0], queued);
      StuckForGood(Step(o, evs[0]), queued + Queued(o, evs[0]), evs[1..]);
    }
  }

  /** A run is the run up to its event i and then the rest. */
  lemma {:induction false} RunFrom(o: Outbox, queued: seq<seq<Byte>>, evs: seq<Event>, i: nat)
    requires Inv(o, queued) && LegalRun(o, queued, evs) && i <= |evs|
    ensures LegalRun(o, queued, evs[..i])
    ensures var (p, q) := Run(o, queued, evs[..i]);
      LegalRun(p, q, evs[i..]) && Run(o, queued, evs) == Run(p, q, evs[i..])
    decreases i
  {
    hide Inv, Step, Queued, Legal;
    if i == 0 {
      assert evs[..0] == [] && evs[0..] == evs;
    } else {
      BusyHasFront(o, queued);
      StepKeeps(o, evs[0], queued);
      Parts(evs, i);
      var o1, q1 := Step(o, evs[0]), queued + Queued(o, evs[0]);
      RunFrom(o1, q1, evs[1..], i - 1);
      hide LegalRun;
      assert Run(o, queued, evs[..i]) == Run(o1, q1, evs[1..][..i - 1]);
    }
  }

  lemma Parts(evs: seq<Event>, i: nat)
    requires 0 < i <= |evs|
    ensures evs[..i][0] == evs[0] && evs[..i][1..] == evs[1..][..i - 1] && evs[1..][i - 1..] == evs[i..]
  {
  }

  lemma FailedIsStuck(o: Outbox, queued: seq<seq<Byte>>)
    requires Inv(o, queued) && Legal(o, EDone(true))
    ensures var p := Step(o, EDone(true)); p.outstanding == 0 && p.queue != [] && p.wire == o.wire
  {
  }

  /** Once a write has failed nothing more is ever handed to the socket, whatever is written
      afterwards. */
  lemma NothingAfterFailure(evs: seq<Event>, i: nat)
    requires Inv(IDLE, []) && LegalRun(IDLE, [], evs) && i < |evs| && evs[i] == EDone(true)
    ensures LegalRun(IDLE, [], evs[..i]) && Run(IDLE, [], evs).0.wire == Run(IDLE, [], evs[..i]).0.wire
  {
    hide Inv, Step, Queued, Legal;
    RunFrom(IDLE, [], evs, i);
    var (o, queued) := Run(IDLE, [], evs[..i]);
    assert evs[i..][0] == evs[i] && evs[i..][1..] == evs[i + 1..];
    BusyHasFront(o, queued);
    FailedIsStuck(o, queued);
    StepKeeps(o, evs[i], queued);
    StuckForGood(Step(o, evs[i]), queued + Queued(o, evs[i]), evs[i + 1..]);
  }

  // ---- what the receiver gets ----------------------------------------------

  /** A package given to Write, and the header packages the engine held then. */
  datatype Message = Message(payload: seq<Byte>, audio: Option<seq<Byte>>, video: Option<seq<Byte>>)

  function ActionOf(m: Message): (r: Byte) { if m.payload == [] then 0 else m.payload[0] }

  function Listed(h: Option<seq<Byte>>): (r: seq<seq<Byte>>) { if h.None? then [] else [h.value] }

  function WriteOf(m: Message): (r: Event) {
    EWrite(Package(m.payload), Headers(Emit(Listed(m.audio)), Emit(Listed(m.video))))
  }

  /** The writes among the events are these messages, in order. */
  ghost predicate Writes(evs: seq<Event>, ms: seq<Message>)
    decreases |evs|
  {
    if evs == [] then ms == []
    else if evs[0].EDone? then Writes(evs[1..], ms)
    else ms != [] && evs[0] == WriteOf(ms[0]) && Writes(evs[1..], ms[1..])
  }

  predicate FirstOf(ms: seq<Message>, i: nat, action: Byte)
    requires i < |ms|
  {
    ActionOf(ms[i]) == action && forall j :: 0 <= j < i ==> ActionOf(ms[j]) != action
  }

  /** The payloads due for message i: the codec header in front of the first audio package
      (action 4) and of the first video package (action 5). */
  function Due(ms: seq<Message>, i: nat): (r: seq<seq<Byte>>)
    requires i < |ms|
  {
    (if FirstOf(ms, i, 4) then Listed(ms[i].audio)
     else if FirstOf(ms, i, 5) then Listed(ms[i].video)
     else []) + [ms[i].payload]
  }

  function AllDue(ms: seq<Message>, n: nat): (r: seq<seq<Byte>>)
    requires n <= |ms|
  {
    if n == 0 then [] else AllDue(ms, n - 1) + Due(ms, n - 1)
  }

  predicate Seen(ms: seq<Message>, n: nat, action: Byte)
    requires n <= |ms|
  {
    exists j :: 0 <= j < n && ActionOf(ms[j]) == action
  }

  ghost predicate Progress(o: Outbox, queued: seq<seq<Byte>>, ms: seq<Message>, n: nat) {
    && n == |queued| <= |ms|
    && (forall i :: 0 <= i < n ==> queued[i] == Emit(Due(ms, i)))
    && (o.audioSent <==> Seen(ms, n, AUDIO)) && (o.videoSent <==> Seen(ms, n, VIDEO))
  }

  lemma ActionOfPackage(m: Message)
    ensures Action(Package(m.payload)) == ActionOf(m) && Package(m.payload) != []
  {
  }

  lemma EmitOne(p: seq<Byte>)
    ensures Emit([p]) == Package(p)
  {
    assert [p][1..] == [];
    assert Emit([p]) == Package(p) + [];
  }

  lemma HeadedIsDue(o: Outbox, ms: seq<Message>, n: nat)
    requires n < |ms| && (o.audioSent <==> Seen(ms, n, AUDIO)) && (o.videoSent <==> Seen(ms, n, VIDEO))
    ensures Headed(o, Package(ms[n].payload), WriteOf(ms[n]).headers) == Emit(Due(ms, n))
  {
    var m := ms[n];
    ActionOfPackage(m);
    EmitOne(m.payload);
    hide Package, Emit, Action, ActionOf;
    assert o.audioSent || FirstOf(ms, n, AUDIO) || ActionOf(m) != AUDIO;
    assert o.videoSent || FirstOf(ms, n, VIDEO) || ActionOf(m) != VIDEO;
    EmitAppend(Listed(m.audio), [m.payload]);
    EmitAppend(Listed(m.video), [m.payload]);
    assert [] + [m.payload] == [m.payload];
  }

  lemma SeenNext(ms: seq<Message>, n: nat, action: Byte)
    requires n < |ms|
    ensures Seen(ms, n + 1, action) <==> Seen(ms, n, action) || ActionOf(ms[n]) == action
  {
  }

  lemma WriteProgress(o: Outbox, queued: seq<seq<Byte>>, ms: seq<Message>, n: nat)
    requires Inv(o, queued) && Progress(o, queued, ms, n) && n < |ms|
    ensures var ev := WriteOf(ms[n]); Progress(Step(o, ev), queued + Queued(o, ev), ms, n + 1)
  {
    HeadedIsDue(o, ms, n);
    ActionOfPackage(ms[n]);
    SeenNext(ms, n, AUDIO);
    SeenNext(ms, n, VIDEO);
    hide Package, Emit, Due, Headed, Action, ActionOf, Seen;
  }

  lemma BusyHasFront(o: Outbox, queued: seq<seq<Byte>>)
    requires Inv(o, queued)
    ensures o.outstanding > 0 ==> o.queue != []
  {
  }

  lemma {:induction false} RunProgress(o: Outbox, queued: seq<seq<Byte>>, evs: seq<Event>, ms: seq<Message>, n: nat)
    requires Inv(o, queued) && LegalRun(o, queued, evs) && Progress(o, queued, ms, n) && Writes(evs, ms[n..])
    ensures var (p, q) := Run(o, queued, evs); Progress(p, q, ms, |ms|)
    decreases |evs|
  {
    hide Inv, Progress, Write, OnWrite, WriteOf, Queued, Package, Step;
    BusyHasFront(o, queued);
    QueuedCount(o, queued, ms, n);
    if evs == [] {
      assert |ms[n..]| == |ms| - n;
    } else {
      StepKeeps(o, evs[0], queued);
      if evs[0].EDone? {
        DoneProgress(o, evs[0], queued, ms, n);
        RunProgress(Step(o, evs[0]), queued + Queued(o, evs[0]), evs[1..], ms, n);
      } else {
        assert ms[n..][0] == ms[n];
        WriteProgress(o, queued, ms, n);
        assert ms[n..][1..] == ms[n + 1..];
        RunProgress(Step(o, evs[0]), queued + Queued(o, evs[0]), evs[1..], ms, n + 1);
      }
    }
  }

  lemma QueuedCount(o: Outbox, queued: seq<seq<Byte>>, ms: seq<Message>, n: nat)
    requires Progress(o, queued, ms, n)
    ensures n == |queued| <= |ms|
  {
  }

  lemma DoneProgress(o: Outbox, ev: Event, queued: seq<seq<Byte>>, ms: seq<Message>, n: nat)
    requires Inv(o, queued) && Legal(o, ev) && ev.EDone? && Progress(o, queued, ms, n)
    ensures Progress(Step(o, ev), queued + Queued(o, ev), ms, n)
  {
    assert queued + [] == queued;
  }

  lemma {:induction false} JoinedDue(queued: seq<seq<Byte>>, ms: seq<Message>, n: nat)
    requires n <= |queued| <= |ms| && forall i :: 0 <= i < n ==> queued[i] == Emit(Due(ms, i))
    ensures Join(queued[..n]) == Emit(AllDue(ms, n))
  {
    hide Emit, Due;
    if n == 0 {
      EmitNothing();
    } else {
      JoinedDue(queued, ms, n - 1);
      assert queued[..n] == queued[..n - 1] + [queued[n - 1]];
      JoinAppend(queued[..n - 1], [queued[n - 1]]);
      JoinOne(queued[n - 1]);
      EmitAppend(AllDue(ms, n - 1), Due(ms, n - 1));
    }
  }

  lemma EmitNothing()
    ensures Emit([]) == []
  {
  }

  lemma JoinOne(b: seq<Byte>)
    ensures Join([b]) == b
  {
    assert [b][1..] == [];
  }

  lemma {:induction false} DueSendable(ms: seq<Message>, n: nat)
    requires n <= |ms| && forall m :: m in ms ==> Sendable([m.payload] + Listed(m.audio) + Listed(m.video))
    ensures Sendable(AllDue(ms, n))
  {
    if n > 0 {
      DueSendable(ms, n - 1);
      var m := ms[n - 1];
      assert Sendable([m.payload] + Listed(m.audio) + Listed(m.video));
      forall p | p in Due(ms, n - 1)
        ensures |p| < TWO32
      {
        assert p in [m.payload] + Listed(m.audio) + Listed(m.video);
      }
    }
  }

  /** Over every run, splitting what has gone to the wire by length prefix gives the messages
      begun so far, in order and once each, with the codec headers in front of the first audio
      and the first video message; and nothing is left over. */
  lemma WireCarriesMessages(evs: seq<Event>, ms: seq<Message>)
    requires Inv(IDLE, []) && LegalRun(IDLE, [], evs) && Writes(evs, ms)
    requires forall m :: m in ms ==> Sendable([m.payload] + Listed(m.audio) + Listed(m.video))
    ensures var (o, _) := Run(IDLE, [], evs);
      && o.outstanding <= 1 && |ms| == |o.wire| + (if o.queue == [] then 0 else |o.queue| - 1)
      && Split(Join(o.wire)) == (AllDue(ms, |o.wire|), [])
  {
    assert ms[0..] == ms;
    RunProgress(IDLE, [], evs, ms, 0);
    var (o, q) := Run(IDLE, [], evs);
    IdleWire(o, q);
    var n := |o.wire|;
    assert o.wire == q[..n];
    JoinedDue(q, ms, n);
    DueSendable(ms, n);
    SplitEmitted(AllDue(ms, n), []);
    assert Emit(AllDue(ms, n)) + [] == Emit(AllDue(ms, n));
  }
}
