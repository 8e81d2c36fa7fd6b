/** A session's incremental parser on values: what GameSession::ServeClient does to the bytes
    read so far, and why the way a stream is cut into reads does not matter. */
module Inbound {
  import opened Bytes
  import opened Framing

  const LOGIN: Byte := 0
  const CONTROL: Byte := 1
  const LOGIN_SIZE: int := 68
  const VERIFICATION_SIZE_AT: int := 35
  const MAX_VERIFICATION_SIZE: int := 32
  const CONTROL_HEAD_SIZE: int := 6

  datatype SessionState = Fresh | Authorizing | Failed | Authorized
  datatype ParseState = ParseNone | ParseHead | ParseBody

  /** What the session sets off: a login request, or a control packet to replay. */
  datatype Effect = Login(packet: seq<Byte>) | Control(packet: seq<Byte>)

  datatype Client = Client(buffer: seq<Byte>, parse: ParseState, state: SessionState, log: seq<Effect>)

  /** How a call ends: it waits for more bytes, it asks for the session to be stopped, or it
      never returns. */
  datatype End = Waiting | Rejected | Spinning

  /** What lies in memory past the bytes read. */
  type Beyond = (seq<Byte>, nat) -> Byte

  function Peek(b: seq<Byte>, i: nat, beyond: Beyond): (r: Byte) {
    if i < |b| then b[i] else beyond(b, i)
  }

  /** The size of a whole package as the code computes it, in 32 bits. */
  function Total(n: int): (r: int) { (HEAD + n) % TWO32 }

  function LoginPacket(b: seq<Byte>, beyond: Beyond): (p: seq<Byte>)
    ensures |p| == LOGIN_SIZE && forall i :: 0 <= i < LOGIN_SIZE ==> p[i] == Peek(b, HEAD + i, beyond)
  {
    seq<Byte>(LOGIN_SIZE, i requires 0 <= i < LOGIN_SIZE => Peek(b, HEAD + i, beyond))
  }

  /** ServeClientLogin on a packet of n bytes. */
  function ServeLogin(c: Client, n: int, beyond: Beyond): (r: (Client, bool)) {
    if n < LOGIN_SIZE then (c, false)
    else
      var p := LoginPacket(c.buffer, beyond);
      if p[VERIFICATION_SIZE_AT] > MAX_VERIFICATION_SIZE then (c.(state := Authorizing), false)
      else (c.(state := Authorizing, log := c.log + [Login(p)]), true)
  }

  /** The handling of one whole package with n bytes of payload. A control packet shorter
      than its fixed part, or longer than the buffer, replays nothing. */
  function Handle(c: Client, n: int, beyond: Beyond): (r: (Client, bool))
    requires |c.buffer| >= HEAD
    ensures r.0.buffer == c.buffer && r.0.parse == c.parse
  {
    var action := Peek(c.buffer, HEAD, beyond);
    if c.state.Authorized? then
      if action == CONTROL && CONTROL_HEAD_SIZE <= n && HEAD + n <= |c.buffer| && HEAD + n < TWO32 then
        (c.(log := c.log + [Control(c.buffer[HEAD..HEAD + n])]), true)
      else
        (c, true)
    else if c.state.Fresh? && action == LOGIN then ServeLogin(c, n, beyond)
    else (c, true)
  }

  /** ServeClient, as long as its seven seconds do not run out. */
  function Serve(c: Client, beyond: Beyond): (r: (Client, End))
    decreases |c.buffer|
  {
    if |c.buffer| == 0 then (c, Waiting)
    else if |c.buffer| < HEAD then (c.(parse := ParseHead), Waiting)
    else
      var n := Size(c.buffer);
      if |c.buffer| < Total(n) then (c.(parse := ParseBody), Waiting)
      else
        var (d, ok) := Handle(c.(parse := ParseBody), n, beyond);
        if !ok then (d, Rejected)
        else if Total(n) == 0 then (d, Spinning)
        else Serve(d.(buffer := d.buffer[Total(n)..], parse := ParseNone), beyond)
  }

  /** A client between two reads. */
  predicate AtRest(c: Client) {
    if |c.buffer| == 0 then c.parse.ParseNone?
    else if |c.buffer| < HEAD then c.parse.ParseHead?
    else c.parse.ParseBody? && |c.buffer| < Total(Size(c.buffer))
  }

  lemma {:induction false} ServeRests(c: Client, beyond: Beyond)
    requires |c.buffer| == 0 ==> c.parse.ParseNone?
    ensures Serve(c, beyond).1.Waiting? ==> AtRest(Serve(c, beyond).0)
    decreases |c.buffer|
  {
    if |c.buffer| >= HEAD && |c.buffer| >= Total(Size(c.buffer)) {
      var n := Size(c.buffer);
      var (d, ok) := Handle(c.(parse := ParseBody), n, beyond);
      if ok && Total(n) != 0 {
        ServeRests(d.(buffer := d.buffer[Total(n)..], parse := ParseNone), beyond);
      }
    }
  }

  /** The client after k turns of the loop on a package whose total is 0. */
  function Turns(c: Client, k: nat, beyond: Beyond): (d: Client)
    requires |c.buffer| >= HEAD
    ensures d.buffer == c.buffer
    decreases k
  {
    if k == 0 then c else Turns(Handle(c, Size(c.buffer), beyond).0, k - 1, beyond)
  }

  /** When a package whose total is 0 has been accepted once, every later turn finds the same
      bytes and accepts them again. */
  lemma {:induction false} SpinsForever(c: Client, k: nat, beyond: Beyond)
    requires |c.buffer| >= HEAD && Total(Size(c.buffer)) == 0 && Handle(c, Size(c.buffer), beyond).1
    ensures var d := Turns(c, k, beyond);
      |d.buffer| >= Total(Size(d.buffer)) == 0 && Handle(d, Size(d.buffer), beyond).1
    decreases k
  {
    if k > 0 {
      SpinsForever(Handle(c, Size(c.buffer), beyond).0, k - 1, beyond);
    }
  }

  /** Walking the bytes by their 32-bit totals, one meets a whole package whose total is 0. */
  predicate Stalls(b: seq<Byte>)
    decreases |b|
  {
    |b| >= HEAD &&
    (var t := Total(Size(b));
     |b| >= t && (t == 0 || Stalls(b[t..])))
  }

  /** The same walk for a session before its login: it ends without a stall at a login that is
      rejected, and goes on by the bytes alone behind one that is accepted. */
  predicate StallsBeforeLogin(b: seq<Byte>, beyond: Beyond)
    decreases |b|
  {
    |b| >= HEAD &&
    (var n := Size(b);
     var t := Total(n);
     var login := Peek(b, HEAD, beyond) == LOGIN;
     && |b| >= t
     && (login ==> n >= LOGIN_SIZE && LoginPacket(b, beyond)[VERIFICATION_SIZE_AT] <= MAX_VERIFICATION_SIZE)
     && (t == 0 || if login then Stalls(b[t..]) else StallsBeforeLogin(b[t..], beyond)))
  }

  /** Past its login a session is caught in the loop if and only if the bytes stall. */
  lemma {:induction false} SpinsIffStalls(c: Client, beyond: Beyond)
    requires !c.state.Fresh?
    ensures Serve(c, beyond).1.Spinning? <==> Stalls(c.buffer)
    ensures !Serve(c, beyond).1.Rejected?
    decreases |c.buffer|
  {
    hide Size;
    if |c.buffer| >= HEAD && |c.buffer| >= Total(Size(c.buffer)) {
      var n := Size(c.buffer);
      var (d, ok) := Handle(c.(parse := ParseBody), n, beyond);
      if Total(n) != 0 {
        SpinsIffStalls(d.(buffer := d.buffer[Total(n)..], parse := ParseNone), beyond);
      }
    }
  }

  /** A new session is caught in the loop if and only if its bytes stall on the way to, at, or
      behind an accepted login. */
  lemma {:induction false} NewSessionSpinsIffStalls(c: Client, beyond: Beyond)
    requires c.state.Fresh?
    ensures Serve(c, beyond).1.Spinning? <==> StallsBeforeLogin(c.buffer, beyond)
    decreases |c.buffer|
  {
    hide Size, LoginPacket;
    if |c.buffer| >= HEAD && |c.buffer| >= Total(Size(c.buffer)) {
      var n := Size(c.buffer);
      var (d, ok) := Handle(c.(parse := ParseBody), n, beyond);
      if ok && Total(n) != 0 {
        var e := d.(buffer := d.buffer[Total(n)..], parse := ParseNone);
        if d.state.Fresh? {
          NewSessionSpinsIffStalls(e, beyond);
        } else {
          SpinsIffStalls(e, beyond);
        }
      }
    }
  }

  // ---- reads ---------------------------------------------------------------

  datatype Read = Read(bytes: seq<Byte>, beyond: Beyond)

  function Feed(c: Client, r: Read): (res: (Client, End)) { Serve(c.(buffer := c.buffer + r.bytes), r.beyond) }

  function Feeds(c: Client, chunks: seq<Read>): (r: (Client, End))
    decreases |chunks|
  {
    if chunks == [] then (c, Waiting)
    else
      var (d, end) := Feed(c, chunks[0]);
      if end.Waiting? then Feeds(d, chunks[1..]) else (d, end)
  }

  function Stream(chunks: seq<Read>): (r: seq<Byte>) {
    if chunks == [] then [] else chunks[0].bytes + Stream(chunks[1..])
  }

  /** The same effects and session state; and the same bytes kept when more are awaited. */
  predicate Same(a: (Client, End), b: (Client, End)) {
    && a.1 == b.1 && a.0.state == b.0.state && a.0.log == b.0.log
    && (a.1.Waiting? ==> a.0 == b.0)
  }

  /** No package up to the login is empty or as long as makes the 32-bit total wrap. */
  predicate Whole(b: seq<Byte>)
    decreases |b|
  {
    |b| < HEAD ||
    (var n := Size(b);
     && 1 <= n < TWO32 - HEAD
     && (|b| < HEAD + n || b[HEAD] == LOGIN || Whole(b[HEAD + n..])))
  }

  predicate Plain(c: Client) { c.state.Fresh? ==> Whole(c.buffer) }

  /** A call that ends before y arrives goes on as if y had been there from the start. */
  lemma {:induction false} ServeSplit(c: Client, y: seq<Byte>, before: Beyond, after: Beyond)
    requires Plain(c.(buffer := c.buffer + y))
    ensures var (d, end) := Serve(c, before);
      Same(Serve(c.(buffer := c.buffer + y), after), if end.Waiting? then Serve(d.(buffer := d.buffer + y), after)
        else (d, end))
    ensures var (d, end) := Serve(c, before); end.Waiting? ==> Plain(d.(buffer := d.buffer + y))
    decreases |c.buffer|
  {
    hide Handle, Size, Whole;
    var b := c.buffer + y;
    var e := c.(buffer := b);
    if c.buffer != [] {
      ParseStateIsRebuilt(e, ParseHead, after);
      ParseStateIsRebuilt(e, ParseBody, after);
    }
    if |c.buffer| >= HEAD {
      SameSize(c.buffer, y);
      var n := Size(c.buffer);
      if |c.buffer| >= Total(n) {
        HandleSplit(c.(parse := ParseBody), y, before, after);
        var (d, ok) := Handle(c.(parse := ParseBody), n, before);
        if ok && Total(n) != 0 {
          var d' := d.(buffer := d.buffer[Total(n)..], parse := ParseNone);
          assert b[Total(n)..] == d'.buffer + y;
          ServeSplit(d', y, before, after);
        }
      }
    }
  }

  lemma ParseStateIsRebuilt(c: Client, p: ParseState, beyond: Beyond)
    requires c.buffer != []
    ensures Serve(c, beyond) == Serve(c.(parse := p), beyond)
  {
  }

  lemma SameSize(b: seq<Byte>, y: seq<Byte>)
    requires |b| >= HEAD
    ensures Size(b + y) == Size(b)
  {
    assert [(b + y)[3], (b + y)[2], (b + y)[1], (b + y)[0]] == [b[3], b[2], b[1], b[0]];
  }

  /** A package handled before y arrives is handled the same way after. */
  lemma HandleSplit(c: Client, y: seq<Byte>, before: Beyond, after: Beyond)
    requires |c.buffer| >= HEAD && |c.buffer| >= Total(Size(c.buffer)) && Plain(c.(buffer := c.buffer + y))
    ensures var n := Size(c.buffer); var (d, ok) := Handle(c, n, before);
      && Size(c.buffer + y) == n
      && Handle(c.(buffer := c.buffer + y), n, after) == (d.(buffer := c.buffer + y), ok)
      && (ok && Total(n) != 0 ==> Plain(d.(buffer := (c.buffer + y)[Total(n)..])))
  {
    var b, n := c.buffer + y, Size(c.buffer);
    SameSize(c.buffer, y);
    if c.state.Fresh? {
      assert Total(n) == HEAD + n;
      if b[HEAD] == LOGIN && n >= LOGIN_SIZE {
        assert LoginPacket(b, after) == LoginPacket(c.buffer, before);
      }
    } else if HEAD + n < TWO32 {
      assert Total(n) == HEAD + n;
      assert b[HEAD..HEAD + n] == c.buffer[HEAD..HEAD + n];
    }
  }

  /** However a stream is cut into reads, and whatever lies past the buffer at each read, the
      session does what it does on one read of the whole stream and keeps the same bytes. */
  lemma {:induction false} ChunksDoNotMatter(c: Client, chunks: seq<Read>, beyond: Beyond)
    requires AtRest(c) && Plain(c.(buffer := c.buffer + Stream(chunks)))
    ensures Same(Feed(c, Read(Stream(chunks), beyond)), Feeds(c, chunks))
    decreases |chunks|
  {
    if chunks == [] {
      assert c.buffer + Stream(chunks) == c.buffer;
    } else {
      var r, rest := chunks[0], Stream(chunks[1..]);
      var e := c.(buffer := c.buffer + r.bytes);
      assert c.buffer + Stream(chunks) == e.buffer + rest;
      ServeSplit(e, rest, r.beyond, beyond);
      var (d, end) := Feed(c, r);
      if end.Waiting? {
        ServeRests(e, r.beyond);
        ChunksDoNotMatter(d, chunks[1..], beyond);
      }
    }
  }

  // ---- exactly when --------------------------------------------------------

  const START: Client := Client([], ParseNone, Fresh, [])

  /** After any number of bytes, what the session has done depends on those bytes alone. */
  ghost predicate Determined(stream: seq<Byte>) {
    forall k, xs, ys :: 0 <= k <= |stream| && Stream(xs) == Stream(ys) == stream[..k] ==>
      Same(Feeds(START, xs), Feeds(START, ys))
  }

  lemma {:induction false} WholePrefix(b: seq<Byte>, k: nat)
    requires Whole(b) && k <= |b|
    ensures Whole(b[..k])
    decreases |b|
  {
    if k >= HEAD {
      assert Size(b[..k]) == Size(b);
      var n := Size(b);
      if k >= HEAD + n && b[HEAD] != LOGIN {
        assert b[..k][HEAD + n..] == b[HEAD + n..][..k - HEAD - n];
        WholePrefix(b[HEAD + n..], k - HEAD - n);
      }
    }
  }

  function Zero(b: seq<Byte>, i: nat): (r: Byte) { 0 }

  function One(b: seq<Byte>, i: nat): (r: Byte) { 1 }

  /** A package that is empty or makes the total wrap is handled by a byte that is not part of
      it: when its head is all that has come, memory past the buffer decides. */
  lemma {:induction false} StrayByteDecides(c: Client, stream: seq<Byte>) returns (k: nat)
    requires c.state.Fresh? && c.buffer == [] && !Whole(stream)
    ensures k <= |stream|
    ensures var d := c.(buffer := stream[..k]); !Same(Serve(d, Zero), Serve(d, One))
    decreases |stream|
  {
    hide Serve, Size;
    var n := Size(stream);
    if 1 <= n < TWO32 - HEAD {
      var t := HEAD + n;
      var d := c.(parse := ParseNone);
      var j := StrayByteDecides(d, stream[t..]);
      k := t + j;
      var b := stream[..k];
      assert b[t..] == stream[t..][..j];
      SameSize(b, stream[k..]);
      assert stream == b + stream[k..];
      Skipped(c.(buffer := b), Zero);
      Skipped(c.(buffer := b), One);
    } else {
      k := HEAD;
      var e := c.(buffer := stream[..HEAD]);
      SameSize(e.buffer, stream[HEAD..]);
      assert stream == e.buffer + stream[HEAD..];
      StrayBytes(e, n);
    }
  }

  /** A package that is no login does nothing before the login. */
  lemma Skipped(c: Client, beyond: Beyond)
    requires c.state.Fresh? && |c.buffer| > HEAD && 1 <= Size(c.buffer) < TWO32 - HEAD
    requires HEAD + Size(c.buffer) <= |c.buffer| && c.buffer[HEAD] != LOGIN
    ensures Serve(c, beyond) == Serve(c.(buffer := c.buffer[HEAD + Size(c.buffer)..], parse := ParseNone), beyond)
  {
    assert Handle(c.(parse := ParseBody), Size(c.buffer), beyond) == (c.(parse := ParseBody), true);
  }

  lemma StrayBytes(e: Client, n: int)
    requires e.state.Fresh? && |e.buffer| == HEAD && Size(e.buffer) == n && (n == 0 || n >= TWO32 - HEAD)
    ensures !Same(Serve(e, Zero), Serve(e, One))
  {
    hide Size;
    assert Total(n) == if n == 0 then HEAD else HEAD + n - TWO32;
    assert Peek(e.buffer, HEAD, Zero) == 0 && Peek(e.buffer, HEAD, One) == 1;
    var p := LoginPacket(e.buffer, Zero);
    assert p[VERIFICATION_SIZE_AT] == 0;
    ParseStateIsRebuilt(e, ParseBody, Zero);
    ParseStateIsRebuilt(e, ParseBody, One);
    var e := e.(parse := ParseBody);
    assert Handle(e, n, One) == (e, true);
    assert Handle(e, n, Zero) == if n == 0 then (e, false)
      else (e.(state := Authorizing, log := e.log + [Login(p)]), true);
  }

  lemma WholeIsDetermined(stream: seq<Byte>, k: nat, xs: seq<Read>, ys: seq<Read>)
    requires Whole(stream) && k <= |stream| && Stream(xs) == Stream(ys) == stream[..k]
    ensures Same(Feeds(START, xs), Feeds(START, ys))
  {
    hide Whole, Serve, Feeds, Stream;
    WholePrefix(stream, k);
    assert [] + stream[..k] == stream[..k];
    ChunksDoNotMatter(START, xs, Zero);
    ChunksDoNotMatter(START, ys, Zero);
  }

  /** A new session's behaviour is determined by its bytes if and only if no package before
      the login is empty or has a size that wraps. */
  lemma DeterminedIffWhole(stream: seq<Byte>)
    ensures Determined(stream) <==> Whole(stream)
  {
    hide Whole, Serve, Feeds, Stream, Same;
    if Whole(stream) {
      forall k, xs, ys | 0 <= k <= |stream| && Stream(xs) == Stream(ys) == stream[..k]
        ensures Same(Feeds(START, xs), Feeds(START, ys))
      {
        WholeIsDetermined(stream, k, xs, ys);
      }
    } else {
      var k := StrayByteDecides(START, stream);
      var x, y := Read(stream[..k], Zero), Read(stream[..k], One);
      OneRead(x);
      OneRead(y);
      assert !Same(Feeds(START, [x]), Feeds(START, [y]));
    }
  }

  lemma OneRead(x: Read)
    ensures Stream([x]) == x.bytes && Feeds(START, [x]) == Serve(START.(buffer := x.bytes), x.beyond)
  {
    assert [x][1..] == [] && Stream([]) == [];
    assert [] + x.bytes == x.bytes;
    assert Stream([x]) == x.bytes + [];
  }

  // ---- what a new session asks the user manager ----------------------------

  /** A package that a new session does not take for a login, and one that it does. */
  predicate NoLogin(p: seq<Byte>) { 1 <= |p| < TWO32 - 4 && p[0] != 0 }

  predicate IsLogin(p: seq<Byte>) { 1 <= |p| < TWO32 - 4 && p[0] == 0 }

  /** A login that is long enough and whose verification lies inside it. */
  predicate Acceptable(p: seq<Byte>) { |p| >= 68 && p[35] <= 32 }

  lemma PacketBytes(p: seq<Byte>, rest: seq<Byte>)
    requires |p| < TWO32 - 4
    ensures var b := Package(p) + rest;
      && |b| >= HEAD + |p| && Size(b) == |p| && Total(|p|) == HEAD + |p| && b[HEAD + |p|..] == rest
      && forall i :: 0 <= i < |p| ==> b[HEAD + i] == p[i]
  {
    var b := Package(p) + rest;
    SizeOfPackage(p, rest);
    hide Size, Package;
    forall i | 0 <= i < |p|
      ensures b[HEAD + i] == p[i]
    {
      assert b[HEAD..HEAD + |p|][i] == b[HEAD + i];
    }
  }

  /** Packages that are no login pass a new session by. */
  lemma {:induction false} Passed(c: Client, ps: seq<seq<Byte>>, rest: seq<Byte>, beyond: Beyond)
    requires c.state.Fresh? && c.parse.ParseNone? && c.buffer == Emit(ps) + rest && forall p :: p in ps ==> NoLogin(p)
    ensures Serve(c, beyond) == Serve(c.(buffer := rest), beyond)
    ensures Whole(rest) ==> Whole(c.buffer)
    decreases |ps|
  {
    hide Serve, Size, Package;
    if ps == [] {
      assert c.buffer == rest;
    } else {
      var p, qs := ps[0], ps[1..];
      assert NoLogin(p);
      Assoc(Package(p), Emit(qs), rest);
      PacketBytes(p, Emit(qs) + rest);
      assert c.buffer[HEAD + 0] == p[0];
      Skipped(c, beyond);
      Passed(c.(buffer := Emit(qs) + rest), qs, rest, beyond);
    }
  }

  /** Behind its login, a session that is not authorized yet lets everything pass. */
  lemma {:induction false} Ignored(c: Client, ps: seq<seq<Byte>>, tail: seq<Byte>, beyond: Beyond)
    requires !c.state.Fresh? && !c.state.Authorized? && c.parse.ParseNone? && c.buffer == Emit(ps) + tail
    requires forall p :: p in ps ==> |p| < TWO32 - 4
    requires |tail| < HEAD || |tail| < Total(Size(tail))
    ensures var (d, end) := Serve(c, beyond); end.Waiting? && d == c.(buffer := tail, parse := d.parse)
    decreases |ps|
  {
    hide Size, Package, Serve;
    if ps == [] {
      assert c.buffer == tail;
      NothingWhole(c, beyond);
    } else {
      var p, qs := ps[0], ps[1..];
      Assoc(Package(p), Emit(qs), tail);
      PacketBytes(p, Emit(qs) + tail);
      var d := c.(buffer := Emit(qs) + tail);
      OneIgnored(c, d, |p|, beyond);
      Ignored(d, qs, tail, beyond);
    }
  }

  lemma OneIgnored(c: Client, d: Client, n: nat, beyond: Beyond)
    requires !c.state.Fresh? && !c.state.Authorized? && c.parse.ParseNone?
    requires |c.buffer| >= HEAD + n && Size(c.buffer) == n && Total(n) == HEAD + n
    requires d == c.(buffer := c.buffer[HEAD + n..])
    ensures Serve(c, beyond) == Serve(d, beyond)
  {
    assert Handle(c.(parse := ParseBody), n, beyond) == (c.(parse := ParseBody), true);
  }

  /** What the login package itself does, in front of the bytes `rest`. */
  lemma LoginServed(c: Client, p: seq<Byte>, rest: seq<Byte>, beyond: Beyond)
    requires c.state.Fresh? && c.parse.ParseNone? && c.buffer == Package(p) + rest && IsLogin(p)
    ensures Whole(c.buffer)
    ensures Acceptable(p) ==>
      Serve(c, beyond) == Serve(c.(buffer := rest, state := Authorizing, log := c.log + [Login(p[..68])]), beyond)
    ensures !Acceptable(p) ==>
      var (d, end) := Serve(c, beyond);
      end.Rejected? && d.log == c.log && d.state == if |p| < 68 then Fresh else Authorizing
  {
    PacketBytes(p, rest);
    hide Size, Package;
    assert c.buffer[HEAD + 0] == p[0];
    var e := c.(parse := ParseBody);
    if |p| >= 68 {
      assert LoginPacket(c.buffer, beyond) == p[..68];
      assert p[..68][35] == p[35];
    }
    assert Handle(e, |p|, beyond) == if Acceptable(p) then
      (e.(state := Authorizing, log := c.log + [Login(p[..68])]), true)
      else (e.(state := if |p| < 68 then Fresh else Authorizing), false);
    hide Handle;
  }

  /** A new session that is sent packages that are no login and then an acceptable login asks
      the user manager once, with the first 68 bytes of that login, however reads cut the
      stream; what is sent behind the login adds nothing until the user manager answers. */
  lemma LoginArrivesInAnyChunks(c: Client, before: seq<seq<Byte>>, login: seq<Byte>, after: seq<seq<Byte>>,
                                tail: seq<Byte>, chunks: seq<Read>)
    requires c.state.Fresh? && AtRest(c) && c.buffer == []
    requires Stream(chunks) == Emit(before) + (Package(login) + (Emit(after) + tail))
    requires (forall p :: p in before ==> NoLogin(p)) && IsLogin(login) && Acceptable(login)
    requires forall p :: p in after ==> |p| < TWO32 - 4
    requires |tail| < HEAD || |tail| < Total(Size(tail))
    ensures var (d, end) := Feeds(c, chunks);
      end.Waiting? && d.buffer == tail && d.state.Authorizing? && d.log == c.log + [Login(login[..68])]
  {
    hide Serve, Feeds, Emit, Stream, Whole, Size, Package;
    var rest := Emit(after) + tail;
    var e := c.(buffer := Emit(before) + (Package(login) + rest));
    assert c.buffer + Stream(chunks) == e.buffer;
    var f := c.(buffer := Package(login) + rest);
    Passed(e, before, f.buffer, Zero);
    LoginServed(f, login, rest, Zero);
    Ignored(f.(buffer := rest, state := Authorizing, log := c.log + [Login(login[..68])]), after, tail, Zero);
    ChunksDoNotMatter(c, chunks, Zero);
  }

  /** A login that is too short, or names more verification bytes than it has, ends the session
      without asking anybody, whatever follows it. */
  lemma BadLoginIsRejected(c: Client, before: seq<seq<Byte>>, login: seq<Byte>, rest: seq<Byte>, chunks: seq<Read>)
    requires c.state.Fresh? && AtRest(c) && c.buffer == []
    requires Stream(chunks) == Emit(before) + (Package(login) + rest)
    requires (forall p :: p in before ==> NoLogin(p)) && IsLogin(login) && !Acceptable(login)
    ensures var (d, end) := Feeds(c, chunks);
      end.Rejected? && d.log == c.log && d.state == if |login| < 68 then Fresh else Authorizing
  {
    hide Serve, Feeds, Emit, Stream, Whole, Size, Package;
    var e := c.(buffer := Emit(before) + (Package(login) + rest));
    assert c.buffer + Stream(chunks) == e.buffer;
    var f := c.(buffer := Package(login) + rest);
    Passed(e, before, f.buffer, Zero);
    LoginServed(f, login, rest, Zero);
    ChunksDoNotMatter(c, chunks, Zero);
  }

  // ---- what an authorized session extracts ---------------------------------

  /** A control packet has action 1 and at least the six bytes every such structure starts
      with. */
  function Replayed(p: seq<Byte>): (r: seq<Effect>) {
    if |p| >= 6 && p[0] == 1 then [Control(p)] else []
  }

  function Controls(ps: seq<seq<Byte>>): (r: seq<Effect>) {
    if ps == [] then [] else Replayed(ps[0]) + Controls(ps[1..])
  }

  lemma ReplayPacket(c: Client, p: seq<Byte>, beyond: Beyond)
    requires c.state.Authorized? && |c.buffer| >= HEAD + |p| && c.buffer[HEAD..HEAD + |p|] == p && |p| < TWO32 - HEAD
    ensures Handle(c, |p|, beyond) == (c.(log := c.log + Replayed(p)), true)
  {
    assert |p| > 0 ==> c.buffer[HEAD] == c.buffer[HEAD..HEAD + |p|][0];
    assert c.log + [] == c.log;
  }

  lemma OnePacket(c: Client, p: seq<Byte>, rest: seq<Byte>, beyond: Beyond)
    requires c.state.Authorized? && c.parse.ParseNone? && c.buffer == Package(p) + rest && |p| < TWO32 - HEAD
    ensures Serve(c, beyond) == Serve(c.(buffer := rest, log := c.log + Replayed(p)), beyond)
  {
    SizeOfPackage(p, rest);
    ReplayPacket(c.(parse := ParseBody), p, beyond);
    hide Package, Size, Handle, Replayed;
    assert Total(|p|) == HEAD + |p|;
  }

  lemma NothingWhole(c: Client, beyond: Beyond)
    requires |c.buffer| < HEAD || |c.buffer| < Total(Size(c.buffer))
    ensures var (d, end) := Serve(c, beyond); end.Waiting? && d == c.(parse := d.parse)
  {
  }

  /** The control packets a client sends are replayed whole, once each and in order, however
      their packages are mixed with others and wherever the stream stops. */
  lemma {:induction false} PacketsArrive(c: Client, ps: seq<seq<Byte>>, tail: seq<Byte>, beyond: Beyond)
    requires c.state.Authorized? && c.parse.ParseNone? && c.buffer == Emit(ps) + tail
    requires forall p :: p in ps ==> |p| < TWO32 - HEAD
    requires |tail| < HEAD || |tail| < Total(Size(tail))
    ensures var (d, end) := Serve(c, beyond);
      end.Waiting? && d.buffer == tail && d.state.Authorized? && d.log == c.log + Controls(ps)
    decreases |ps|
  {
    hide Serve, Package, Size, Replayed;
    if ps == [] {
      assert c.buffer == tail && c.log + Controls(ps) == c.log;
      NothingWhole(c, beyond);
    } else {
      var p, qs := ps[0], ps[1..];
      var rest := Emit(qs) + tail;
      Assoc(Package(p), Emit(qs), tail);
      var d := c.(buffer := rest, log := c.log + Replayed(p));
      OnePacket(c, p, rest, beyond);
      PacketsArrive(d, qs, tail, beyond);
      Assoc(c.log, Replayed(p), Controls(qs));
    }
  }

  lemma PacketsArriveInAnyChunks(c: Client, ps: seq<seq<Byte>>, tail: seq<Byte>, chunks: seq<Read>)
    requires c.state.Authorized? && AtRest(c) && c.buffer == [] && Stream(chunks) == Emit(ps) + tail
    requires forall p :: p in ps ==> |p| < TWO32 - HEAD
    requires |tail| < HEAD || |tail| < Total(Size(tail))
    ensures var (d, end) := Feeds(c, chunks);
      end.Waiting? && d.buffer == tail && d.state.Authorized? && d.log == c.log + Controls(ps)
  {
    hide Serve, Feeds, Controls, Emit, Stream;
    var e := c.(buffer := Emit(ps) + tail);
    assert c.buffer + Stream(chunks) == e.buffer;
    PacketsArrive(e, ps, tail, Zero);
    ChunksDoNotMatter(c, chunks, Zero);
  }
}
