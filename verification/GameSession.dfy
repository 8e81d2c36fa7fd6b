/** A websocket session updated in place: the read buffer and parser states, the write queue
    and header flags, against Inbound and Outbound. */
module GameSession {
  import opened Bytes
  import opened Framing
  import In = Inbound
  import Out = Outbound

  class GameSession {
    var readBuffer: seq<Byte>
    var parseState: In.ParseState
    var sessionState: In.SessionState
    var effects: seq<In.Effect>
    var writeQueue: seq<seq<Byte>>
    var audioHeaderSent: bool
    var videoHeaderSent: bool
    var wire: seq<seq<Byte>>
    var outstanding: nat

    ghost function Client(): (r: In.Client)
      reads this
    {
      In.Client(readBuffer, parseState, sessionState, effects)
    }

    ghost function Outbox(): (r: Out.Outbox)
      reads this
    {
      Out.Outbox(writeQueue, audioHeaderSent, videoHeaderSent, wire, outstanding)
    }

    constructor ()
      ensures Client() == In.START && Outbox() == Out.IDLE
    {
      readBuffer, parseState, sessionState, effects := [], In.ParseNone, In.Fresh, [];
      writeQueue, audioHeaderSent, videoHeaderSent, wire, outstanding := [], false, false, [], 0;
    }

    // ---- reading -------------------------------------------------------------

    /** ServeClientLogin on a packet of `size` bytes behind the head. */
    method ServeClientLogin(size: int, beyond: In.Beyond) returns (ok: bool)
      modifies this
      ensures (Client(), ok) == In.ServeLogin(old(Client()), size, beyond)
      ensures Outbox() == old(Outbox())
    {
      if size < In.LOGIN_SIZE { return false; }
      sessionState := In.Authorizing;
      var packet := In.LoginPacket(readBuffer, beyond);
      if packet[In.VERIFICATION_SIZE_AT] > In.MAX_VERIFICATION_SIZE { return false; }
      effects := effects + [In.Login(packet)];
      ok := true;
    }

    /** The `whole package` part of ServeClient. */
    method ServePackage(size: int, beyond: In.Beyond) returns (ok: bool)
      requires |readBuffer| >= HEAD
      modifies this
      ensures (Client(), ok) == In.Handle(old(Client()), size, beyond)
      ensures Outbox() == old(Outbox())
    {
      ok := true;
      var action := In.Peek(readBuffer, HEAD, beyond);
      if sessionState.Authorized? {
        if action == In.CONTROL {
          if In.CONTROL_HEAD_SIZE <= size && HEAD + size <= |readBuffer| && HEAD + size < TWO32 {
            effects := effects + [In.Control(readBuffer[HEAD..HEAD + size])];
          }
        }
      } else if sessionState.Fresh? {
        if action == In.LOGIN {
          ok := ServeClientLogin(size, beyond);
        }
      }
    }

    /** ServeClient. A package whose 32-bit total is 0 consumes nothing, so the loop goes round
        for ever; the model stops there and says so. */
    method ServeClient(beyond: In.Beyond) returns (end: In.End)
      requires parseState.ParseBody? ==> |readBuffer| >= HEAD
      modifies this
      ensures (Client(), end) == In.Serve(old(Client()), beyond)
      ensures Outbox() == old(Outbox())
    {
      while |readBuffer| > 0
        invariant parseState.ParseBody? ==> |readBuffer| >= HEAD
        invariant In.Serve(Client(), beyond) == In.Serve(old(Client()), beyond)
        invariant Outbox() == old(Outbox())
        decreases |readBuffer|
      {
        hide Size, In.Handle;
        if parseState.ParseNone? {
          parseState := In.ParseHead;
        }
        if parseState.ParseHead? {
          if |readBuffer| < HEAD {
            return In.Waiting;
          }
          parseState := In.ParseBody;
        }
        var size := Size(readBuffer);
        var total := In.Total(size);
        if |readBuffer| < total {
          return In.Waiting;
        }
        var ok := ServePackage(size, beyond);
        if !ok {
          return In.Rejected;
        }
        if total == 0 {
          return In.Spinning;
        }
        readBuffer := readBuffer[total..];
        parseState := In.ParseNone;
      }
      end := In.Waiting;
    }

    /** OnRead for a successful read. */
    method OnRead(bytes: seq<Byte>, beyond: In.Beyond) returns (end: In.End)
      requires In.AtRest(Client())
      modifies this
      ensures (Client(), end) == In.Feed(old(Client()), In.Read(bytes, beyond))
      ensures end.Waiting? ==> In.AtRest(Client())
      ensures Outbox() == old(Outbox())
    {
      readBuffer := readBuffer + bytes;
      In.ServeRests(Client(), beyond);
      end := ServeClient(beyond);
    }

    // ---- writing -------------------------------------------------------------

    /** Write, with the codec headers the engine holds now. */
    method Write(buffer: seq<Byte>, headers: Out.Headers)
      modifies this
      ensures Outbox() == Out.Write(old(Outbox()), buffer, headers)
      ensures Client() == old(Client())
    {
      if buffer == [] { return; }
      var whole := buffer;
      var action := Out.Action(buffer);
      if action == Out.AUDIO {
        if !audioHeaderSent {
          audioHeaderSent := true;
          whole := headers.audio + whole;
        }
      } else if action == Out.VIDEO {
        if !videoHeaderSent {
          videoHeaderSent := true;
          whole := headers.video + whole;
        }
      }
      writeQueue := writeQueue + [whole];
      if 1 < |writeQueue| { return; }
      wire, outstanding := wire + [writeQueue[0]], outstanding + 1;
    }

    /** OnWrite: the socket calls it once for every write it was handed. */
    method OnWrite(failed: bool)
      requires exists queued :: Out.Inv(Outbox(), queued)
      requires outstanding > 0
      modifies this
      ensures old(writeQueue) != [] && Outbox() == Out.OnWrite(old(Outbox()), failed)
      ensures Client() == old(Client())
    {
      outstanding := outstanding - 1;
      if failed { return; }
      writeQueue := writeQueue[1..];
      if writeQueue != [] {
        wire, outstanding := wire + [writeQueue[0]], outstanding + 1;
      }
    }
  }
}
