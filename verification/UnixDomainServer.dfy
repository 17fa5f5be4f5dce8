/** The server end of the transport: one session, proved against a pure function of the byte stream its
    peer supplies. */
module UnixDomainServer {
  import opened Wrappers
  import opened Framing
  import opened Handling
  import opened Sockets

  /** All that matters about a peer: what it sends, how reads end after it, and how much it takes. */
  datatype Peer = Peer(incoming: Bytes, readFault: SystemFault, room: Room)

  datatype SessionRun = SessionRun(entries: seq<Entry>, output: Bytes, app: App, end: SessionEnd)

  /** What a session does with a peer, however the peer's bytes are chopped into reads. */
  function SessionOn(h: RequestHandler, app: App, peer: Peer): SessionRun
    decreases |peer.incoming|
  {
    match NextFrame(peer.incoming)
    case None => SessionRun([], [], app, EndOf(peer.readFault))
    case Some((request, rest)) =>
      var outcome := h(app, request);
      match outcome
      case Throws(later, fault) => SessionRun([Entry(request, outcome)], [], later, EndOf(fault))
      case Reply(later, response) =>
        var taken := Absorbed(peer.room, Frame(response));
        if taken != Frame(response) then
          SessionRun([Entry(request, outcome)], taken, later, Failed(UnableToSendMessage))
        else
          Prepend([Entry(request, outcome)], taken,
                  SessionOn(h, later, Peer(rest, peer.readFault, After(peer.room, |taken|))))
  }

  /** A run after calls already made and bytes already written. */
  function Prepend(entries: seq<Entry>, output: Bytes, run: SessionRun): SessionRun {
    run.(entries := entries + run.entries, output := output + run.output)
  }

  /** What a session has done so far: the calls made, and all that was ever written to the socket. */
  datatype Done = Done(entries: seq<Entry>, written: Bytes)

  /** The run on a socket where `before` was written earlier is what is done, then the session on what
      is left of the peer. */
  ghost predicate GoesOn(total: SessionRun, before: Bytes, done: Done, h: RequestHandler, app: App, peer: Peer) {
    var left := SessionOn(h, app, peer);
    && total.entries == done.entries + left.entries
    && before + total.output == done.written + left.output
    && total.app == left.app && total.end == left.end
  }

  ghost predicate Ends(total: SessionRun, before: Bytes, done: Done, app: App, end: SessionEnd) {
    total.entries == done.entries && before + total.output == done.written && total.app == app && total.end == end
  }

  lemma {:induction false} NoRound(total: SessionRun, before: Bytes, done: Done, h: RequestHandler, app: App, peer: Peer)
    requires GoesOn(total, before, done, h, app, peer) && NextFrame(peer.incoming).None?
    ensures Ends(total, before, done, app, EndOf(peer.readFault))
  {
    assert done.written + [] == done.written;
  }

  /** The next complete frame decides how the run goes on. */
  lemma {:induction false} NextRound(
    total: SessionRun, before: Bytes, done: Done, h: RequestHandler, app: App, peer: Peer,
    request: ProtocolMessage, rest: Bytes)
    requires GoesOn(total, before, done, h, app, peer) && NextFrame(peer.incoming) == Some((request, rest))
    ensures var outcome := h(app, request);
            var entries := done.entries + [Entry(request, outcome)];
            match outcome
            case Throws(later, fault) => Ends(total, before, Done(entries, done.written), later, EndOf(fault))
            case Reply(later, response) =>
              var taken := Absorbed(peer.room, Frame(response));
              if taken == Frame(response) then
                GoesOn(total, before, Done(entries, done.written + taken), h, later,
                       Peer(rest, peer.readFault, After(peer.room, |taken|)))
              else Ends(total, before, Done(entries, done.written + taken), later, Failed(UnableToSendMessage))
  {
    var e := Entry(request, h(app, request));
    assert done.written + [] == done.written;
    if e.outcome.Reply? {
      var taken := Absorbed(peer.room, Frame(e.outcome.response));
      if taken == Frame(e.outcome.response) {
        var later := SessionOn(h, e.outcome.app, Peer(rest, peer.readFault, After(peer.room, |taken|)));
        Assoc(done.entries, [e], later.entries);
        Assoc(done.written, taken, later.output);
      }
    }
  }

  datatype Attempt<+T> = Value(value: T) | Error(error: ServerError) | Exception(fault: Fault)

  class SyncUnixDomainSession {
    const socket: Socket
    const handler: RequestHandler
    var app: App

    constructor (socket: Socket, handler: RequestHandler, app: App)
      ensures this.socket == socket && this.handler == handler && this.app == app
    {
      this.socket, this.handler, this.app := socket, handler, app;
    }

    function Remaining(): Peer
      reads this, socket
    {
      Peer(socket.incoming, socket.readFault, socket.room)
    }

    method ReadHeader() returns (r: Attempt<uint32>)
      modifies socket`incoming, socket`cameShort
      ensures |old(socket.incoming)| >= HEADER_SIZE ==>
                && r == Value(Length(old(socket.incoming)[..HEADER_SIZE]))
                && socket.incoming == old(socket.incoming)[HEADER_SIZE..]
      ensures |old(socket.incoming)| < HEADER_SIZE ==> r == Exception(socket.readFault)
    {
      var buffer := new byte[HEADER_SIZE];
      var moved := socket.ReadFull(buffer);
      if moved.Fault? {
        return Exception(moved.fault);
      }
      r := Value(Length(buffer[..]));
    }

    /** Reads the body, calls the handler and lays out the response frame. */
    method ReadBody(length: uint32) returns (r: Attempt<array<byte>>, ghost entries: seq<Entry>)
      modifies socket`incoming, socket`cameShort, `app
      ensures |old(socket.incoming)| < length ==>
                r == Exception(socket.readFault) && entries == [] && app == old(app)
      ensures |old(socket.incoming)| >= length ==>
                var request := old(socket.incoming)[..length];
                var outcome := handler(old(app), request);
                && socket.incoming == old(socket.incoming)[length..]
                && entries == [Entry(request, outcome)] && app == outcome.app
                && match outcome
                   case Reply(_, response) => r.Value? && fresh(r.value) && r.value[..] == Frame(response)
                   case Throws(_, fault) => r == Exception(fault)
    {
      entries := [];
      var buffer := new byte[length];
      var moved := socket.ReadFull(buffer);
      if moved.Fault? {
        return Exception(moved.fault), entries;
      }
      var request: ProtocolMessage := buffer[..];
      var outcome := handler(app, request);
      app := outcome.app;
      entries := [Entry(request, outcome)];
      match outcome {
        case Throws(_, fault) => r := Exception(fault);
        case Reply(_, response) =>
          var frame := FrameBuffer(response);
          r := Value(frame);
      }
    }

    method WriteResponse(response: array<byte>) returns (r: Attempt<()>)
      modifies socket`outgoing, socket`room
      ensures var taken := Absorbed(old(socket.room), response[..]);
              && socket.outgoing == old(socket.outgoing) + taken
              && socket.room == After(old(socket.room), |taken|)
              && r == if taken == response[..] then Value(()) else Error(UnableToSendMessage)
    {
      var moved := socket.WriteFull(response);
      r := if moved.Fault? then Error(UnableToSendMessage) else Value(());
    }

    /** One request: header, body and response; and whether the session ends with it. */
    method Round() returns (stop: Option<SessionEnd>, ghost entries: seq<Entry>)
      modifies this, socket
      ensures NextFrame(old(socket.incoming)).None? ==>
                stop == Some(EndOf(socket.readFault)) && entries == []
                && app == old(app) && socket.outgoing == old(socket.outgoing)
      ensures NextFrame(old(socket.incoming)).Some? ==>
                var (request, rest) := NextFrame(old(socket.incoming)).value;
                var outcome := handler(old(app), request);
                && entries == [Entry(request, outcome)] && app == outcome.app
                && match outcome
                   case Throws(_, fault) => stop == Some(EndOf(fault)) && socket.outgoing == old(socket.outgoing)
                   case Reply(_, response) =>
                     var taken := Absorbed(old(socket.room), Frame(response));
                     && socket.outgoing == old(socket.outgoing) + taken
                     && stop == (if taken == Frame(response) then None else Some(Failed(UnableToSendMessage)))
                     && Remaining() == Peer(rest, socket.readFault, After(old(socket.room), |taken|))
    {
      ghost var incoming := socket.incoming;
      var header := ReadHeader();
      if header.Exception? {
        return Some(EndOf(header.fault)), [];
      }
      if |incoming[HEADER_SIZE..]| >= header.value {
        NextFrameParts(incoming, header.value);
      }
      var body;
      body, entries := ReadBody(header.value);
      if body.Exception? {
        return Some(EndOf(body.fault)), entries;
      }
      var written := WriteResponse(body.value);
      stop := if written.Error? then Some(Failed(written.error)) else None;
    }

    /** The session loop. It terminates because every round takes a complete frame off the stream. */
    method Start() returns (end: SessionEnd, ghost entries: seq<Entry>)
      modifies this, socket
      ensures var run := SessionOn(handler, old(app), old(Remaining()));
              end == run.end && entries == run.entries && app == run.app
              && socket.outgoing == old(socket.outgoing) + run.output
    {
      entries := [];
      ghost var before, total := socket.outgoing, SessionOn(handler, app, Remaining());
      while true
        invariant GoesOn(total, before, Done(entries, socket.outgoing), handler, app, Remaining())
        decreases |socket.incoming|
      {
        ghost var peer, done, state := Remaining(), Done(entries, socket.outgoing), app;
        match NextFrame(peer.incoming) {
          case None => NoRound(total, before, done, handler, state, peer);
          case Some((request, rest)) => NextRound(total, before, done, handler, state, peer, request, rest);
        }
        var stop;
        ghost var handled;
        stop, handled := Round();
        entries := entries + handled;
        if stop.Some? {
          return stop.value, entries;
        }
      }
    }
  }

  // What a session amounts to

  /** The session ran to the end of the stream: every complete frame was handled and answered. */
  ghost predicate RanOut(peer: Peer, run: SessionRun) {
    && Requests(run.entries) == SplitFrames(peer.incoming).frames
    && AllReplied(run.entries) && run.output == Frames(Responses(run.entries))
    && run.end == EndOf(peer.readFault)
  }

  /** The last handler call threw; what came before was answered in full. */
  ghost predicate HandlerThrew(run: SessionRun) {
    && run.output == Frames(Responses(run.entries))
    && run.entries != [] && AllReplied(run.entries[..|run.entries| - 1])
    && var last := run.entries[|run.entries| - 1].outcome;
       last.Throws? && run.end == EndOf(last.fault)
  }

  /** The peer stopped taking bytes within the last response. */
  ghost predicate PeerStoppedReading(peer: Peer, run: SessionRun) {
    && run.entries != [] && AllReplied(run.entries)
    && run.output < Frames(Responses(run.entries)) && peer.room == Limited(|run.output|)
    && run.end == Failed(UnableToSendMessage)
  }

  lemma {:induction false} ServeCons(h: RequestHandler, app: App, request: ProtocolMessage, later: seq<ProtocolMessage>)
    ensures Serve(h, app, [request] + later)
            == [Entry(request, h(app, request))] + Serve(h, h(app, request).app, later)
    ensures AppAfter(h, app, [request] + later) == AppAfter(h, h(app, request).app, later)
  {
    ServeConcat(h, app, [request], later);
    ServeSnoc(h, app, [], request);
    assert [] + [request] == [request];
  }

  lemma {:induction false} ResponsesCons(e: Entry, log: seq<Entry>)
    requires e.outcome.Reply?
    ensures Responses([e] + log) == [e.outcome.response] + Responses(log)
  {
    if log == [] {
      assert [e] + log == [] + [e];
      ResponsesSnoc([], e);
    } else {
      var n := |log| - 1;
      ResponsesCons(e, log[..n]);
      assert log == log[..n] + [log[n]];
      assert [e] + log == ([e] + log[..n]) + [log[n]];
      ResponsesSnoc([e] + log[..n], log[n]);
      ResponsesSnoc(log[..n], log[n]);
    }
  }

  /** The run that goes on as `run` does after a first request that was answered in full. */
  function Extended(e: Entry, run: SessionRun): SessionRun
    requires e.outcome.Reply?
  {
    Prepend([e], Frame(e.outcome.response), run)
  }

  lemma {:induction false} ExtendedParts(e: Entry, run: SessionRun)
    requires e.outcome.Reply?
    ensures Requests(Extended(e, run).entries) == [e.request] + Requests(run.entries)
    ensures Frames(Responses(Extended(e, run).entries)) == Frame(e.outcome.response) + Frames(Responses(run.entries))
  {
    ResponsesCons(e, run.entries);
    FramesCons(e.outcome.response, Responses(run.entries));
  }

  lemma {:induction false} ExtendThrew(e: Entry, run: SessionRun)
    requires e.outcome.Reply? && HandlerThrew(run)
    ensures HandlerThrew(Extended(e, run))
  {
    var longer := Extended(e, run);
    ExtendedParts(e, run);
    assert longer.entries[..|longer.entries| - 1] == [e] + run.entries[..|run.entries| - 1];
  }

  lemma {:induction false} ExtendStopped(e: Entry, peer: Peer, later: Peer, run: SessionRun)
    requires e.outcome.Reply? && PeerStoppedReading(later, run)
    requires var n := |Frame(e.outcome.response)|;
             later.room.Limited? && peer.room == Limited(later.room.n + n)
    ensures PeerStoppedReading(peer, Extended(e, run))
  {
    ExtendedParts(e, run);
  }

  lemma {:induction false} ExtendRanOut(e: Entry, peer: Peer, later: Peer, run: SessionRun)
    requires e.outcome.Reply? && RanOut(later, run) && later.readFault == peer.readFault
    requires NextFrame(peer.incoming) == Some((e.request, later.incoming))
    ensures RanOut(peer, Extended(e, run))
  {
    ExtendedParts(e, run);
  }

  /** What is left of a peer after one request from it was answered in full. */
  function Later(peer: Peer, rest: Bytes, response: ProtocolMessage): Peer
    requires peer.room.Limited? ==> |Frame(response)| <= peer.room.n
  {
    Peer(rest, peer.readFault, After(peer.room, |Frame(response)|))
  }

  /** A session that answers its first request goes on from there. */
  lemma {:induction false} FirstRound(h: RequestHandler, app: App, peer: Peer, request: ProtocolMessage, rest: Bytes)
    requires NextFrame(peer.incoming) == Some((request, rest)) && h(app, request).Reply?
    requires peer.room.Limited? ==> |Frame(h(app, request).response)| <= peer.room.n
    ensures SessionOn(h, app, peer)
            == Extended(Entry(request, h(app, request)),
                        SessionOn(h, h(app, request).app, Later(peer, rest, h(app, request).response)))
  {
  }

  /** A session whose first request is its last. */
  lemma {:induction false} OnlyRound(h: RequestHandler, app: App, peer: Peer, request: ProtocolMessage, rest: Bytes)
    requires NextFrame(peer.incoming) == Some((request, rest))
    requires h(app, request).Reply? ==> peer.room.Limited? && peer.room.n < |Frame(h(app, request).response)|
    ensures var run := SessionOn(h, app, peer);
            && run.entries == [Entry(request, h(app, request))] && run.app == h(app, request).app
            && (HandlerThrew(run) || PeerStoppedReading(peer, run))
  {
    var e := Entry(request, h(app, request));
    OneResponse(e);
    var run := SessionOn(h, app, peer);
    assert run.entries == [e] && [e][..0] == [];
  }

  lemma {:induction false} OneResponse(e: Entry)
    ensures e.outcome.Throws? ==> Frames(Responses([e])) == []
    ensures e.outcome.Reply? ==> Frames(Responses([e])) == Frame(e.outcome.response)
  {
    assert [] + [e] == [e];
    ResponsesSnoc([], e);
    if e.outcome.Reply? {
      FramesCons(e.outcome.response, []);
      assert [e.outcome.response] + [] == [e.outcome.response] && Frame(e.outcome.response) + [] == Frame(e.outcome.response);
    }
  }

  /** The handler calls of a run are the reference execution of the first complete frames on the
      stream, and each used up at least a header of it. */
  ghost predicate Called(h: RequestHandler, app: App, peer: Peer, run: SessionRun) {
    && run.entries == Serve(h, app, Requests(run.entries))
    && run.app == AppAfter(h, app, Requests(run.entries))
    && Requests(run.entries) <= SplitFrames(peer.incoming).frames
    && HEADER_SIZE * |run.entries| <= |peer.incoming|
  }

  lemma {:induction false} ExtendCalled(h: RequestHandler, app: App, peer: Peer, e: Entry, later: Peer, run: SessionRun)
    requires e.outcome.Reply? && e.outcome == h(app, e.request)
    requires NextFrame(peer.incoming) == Some((e.request, later.incoming))
    requires Called(h, e.outcome.app, later, run)
    ensures Called(h, app, peer, Extended(e, run))
  {
    var requests := Requests(run.entries);
    assert Requests(Extended(e, run).entries) == [e.request] + requests;
    ServeCons(h, app, e.request, requests);
    SplitCons(peer.incoming, e.request, later.incoming);
  }

  lemma {:induction false} OnlyCalled(h: RequestHandler, app: App, peer: Peer, e: Entry, rest: Bytes, run: SessionRun)
    requires e.outcome == h(app, e.request) && NextFrame(peer.incoming) == Some((e.request, rest))
    requires run.entries == [e] && run.app == e.outcome.app
    ensures Called(h, app, peer, run)
  {
    ServeCons(h, app, e.request, []);
    assert Requests([e]) == [e.request] == [e.request] + [];
    SplitCons(peer.incoming, e.request, rest);
  }

  /** The calls of every session are such a reference execution, so its loop ends after at most a
      quarter as many rounds as the stream has bytes. */
  lemma {:induction false} SessionCalls(h: RequestHandler, app: App, peer: Peer)
    ensures Called(h, app, peer, SessionOn(h, app, peer))
    decreases |peer.incoming|
  {
    match NextFrame(peer.incoming) {
      case None =>
      case Some((request, rest)) =>
        var e := Entry(request, h(app, request));
        if e.outcome.Reply? && (peer.room.Limited? ==> |Frame(e.outcome.response)| <= peer.room.n) {
          var later := Later(peer, rest, e.outcome.response);
          FirstRound(h, app, peer, request, rest);
          SessionCalls(h, e.outcome.app, later);
          ExtendCalled(h, app, peer, e, later, SessionOn(h, e.outcome.app, later));
        } else {
          OnlyRound(h, app, peer, request, rest);
          OnlyCalled(h, app, peer, e, rest, SessionOn(h, app, peer));
        }
    }
  }

  /** No session writes more than its peer takes. */
  lemma {:induction false} SessionFits(h: RequestHandler, app: App, peer: Peer)
    ensures peer.room.Limited? ==> |SessionOn(h, app, peer).output| <= peer.room.n
    decreases |peer.incoming|
  {
    match NextFrame(peer.incoming) {
      case None =>
      case Some((request, rest)) =>
        var outcome := h(app, request);
        if outcome.Reply? && (peer.room.Limited? ==> |Frame(outcome.response)| <= peer.room.n) {
          FirstRound(h, app, peer, request, rest);
          SessionFits(h, outcome.app, Later(peer, rest, outcome.response));
        }
    }
  }

  /** A session stops only at the end of the stream, with every complete frame handled and answered,
      at a handler that threw, or at a peer that stopped reading; a trailing partial frame never
      reaches the handler, and the bytes written are the frames of the responses. */
  lemma {:induction false} SessionRefines(h: RequestHandler, app: App, peer: Peer)
    ensures var run := SessionOn(h, app, peer);
            RanOut(peer, run) || HandlerThrew(run) || PeerStoppedReading(peer, run)
    decreases |peer.incoming|
  {
    match NextFrame(peer.incoming) {
      case None =>
      case Some((request, rest)) =>
        var outcome := h(app, request);
        if outcome.Reply? && (peer.room.Limited? ==> |Frame(outcome.response)| <= peer.room.n) {
          var e, later := Entry(request, outcome), Later(peer, rest, outcome.response);
          var run := SessionOn(h, outcome.app, later);
          FirstRound(h, app, peer, request, rest);
          SessionRefines(h, outcome.app, later);
          if RanOut(later, run) {
            ExtendRanOut(e, peer, later, run);
          } else if HandlerThrew(run) {
            ExtendThrew(e, run);
          } else {
            ExtendStopped(e, peer, later, run);
          }
        } else {
          OnlyRound(h, app, peer, request, rest);
        }
    }
  }

  /** What failed: the last call, reading after the last complete request, or neither. */
  ghost predicate EndsBy(peer: Peer, run: SessionRun, fault: Fault) {
    || (HandlerThrew(run) && run.entries[|run.entries| - 1].outcome.fault == fault)
    || (RanOut(peer, run) && peer.readFault == fault)
  }

  /** Exactly when a session ends how: end of file and a bad descriptor are a normal end, wherever they come
      from, any other system error is returned, and another exception is not caught. */
  lemma {:induction false} SessionEnds(h: RequestHandler, app: App, peer: Peer)
    ensures var run := SessionOn(h, app, peer);
            && (run.end == Completed <==> EndsBy(peer, run, EndOfFile) || EndsBy(peer, run, BadDescriptor))
            && (run.end == Failed(GeneralServerSessionError) <==> EndsBy(peer, run, OtherSystemError))
            && (run.end == Thrown <==> EndsBy(peer, run, NonSystemException))
            && (run.end == Failed(UnableToSendMessage) <==> PeerStoppedReading(peer, run))
            && run.end != Failed(NotEnoughBytesReceived) && run.end != Failed(GeneralServerError)
  {
    var run := SessionOn(h, app, peer);
    SessionRefines(h, app, peer);
    EndsOnce(peer, run);
  }

  lemma {:induction false} EndsOnce(peer: Peer, run: SessionRun)
    requires RanOut(peer, run) || HandlerThrew(run) || PeerStoppedReading(peer, run)
    ensures !(RanOut(peer, run) && HandlerThrew(run))
    ensures !(PeerStoppedReading(peer, run) && (RanOut(peer, run) || HandlerThrew(run)))
  {
  }
}
