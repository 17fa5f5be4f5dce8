/** The guarantees of every reachable state, across all clients. */
module Serialisation {
  import opened Framing
  import opened Handling
  import opened Protocol
  import opened Invariant
  import opened LockStep

  /** Lock step: conservation of bytes in both directions, at most one outstanding request, and the
      n-th successful receive is the handler's response to the n-th request. */
  lemma {:induction false} LockStepHolds(cfg: Config, s: State, i: nat)
    requires Reachable(cfg, s) && i < |s.conns|
    ensures var c := s.conns[i];
            && c.sent == c.taken + c.toServer && c.written == c.received + c.toClient
            && |c.toServer| <= cfg.capacity && |c.toClient| <= cfg.capacity
    ensures var c := s.conns[i];
            && |c.replies| <= |c.entries| <= |c.issued|
            && (!c.failed ==> |c.issued| <= |c.replies| + 1)
            && (!c.failed && !c.phase.Closed? ==> (InCall(c.phase) <==> |c.issued| == |c.replies| + 1))
    ensures forall n | 0 <= n < |s.conns[i].replies| :: AnsweredInStep(s.conns[i], n)
  {
    ReachableInv(cfg, s);
    assert ConnAt(cfg, s, i);
    Outstanding(cfg.capacity, s.conns[i], SessionOf(s, i), Gone(s, i));
    forall n | 0 <= n < |s.conns[i].replies| ensures AnsweredInStep(s.conns[i], n) {
      RepliesAreResponses(cfg.capacity, s.conns[i], SessionOf(s, i), Gone(s, i), n);
    }
  }

  /** The client reads at frame boundaries until its first error: what it has consumed is the frames of
      its replies, and the header of one more while it waits for the body. Even after an error it has
      consumed only bytes of the handler's responses. */
  lemma {:induction false} ReaderAligned(cfg: Config, s: State, i: nat)
    requires Reachable(cfg, s) && i < |s.conns|
    ensures var c := s.conns[i];
            !c.failed && !c.phase.Closed? ==>
              c.received == Frames(c.replies) + if c.phase.AwaitBody? then Header(c.phase.expected) else []
    ensures var c := s.conns[i]; Frames(c.replies) <= c.received <= Frames(Responses(c.entries))
  {
    ReachableInv(cfg, s);
    assert ConnAt(cfg, s, i);
    WrittenFrames(s.conns[i], SessionOf(s, i));
    PrefixTrans(s.conns[i].received, s.conns[i].written, Frames(Responses(s.conns[i].entries)));
  }

  lemma {:induction false} SessionPart(
    h: RequestHandler, app: App, log: seq<Entry>, order: seq<nat>, conns: seq<Conn>, j: nat)
    requires forall k | 0 <= k < |order| :: order[k] < |conns|
    requires log == Concatenated(order, conns) && log == Serve(h, app, Requests(log))
    requires j < |order|
    ensures var before, entries := Requests(Concatenated(order[..j], conns)), conns[order[j]].entries;
            entries == Serve(h, AppAfter(h, app, before), Requests(entries))
    decreases |order|
  {
    var n := |order| - 1;
    var earlier := Concatenated(order[..n], conns);
    ServedParts(h, app, earlier, conns[order[n]].entries);
    if j < n {
      assert order[..n][..j] == order[..j] && order[..n][j] == order[j];
      SessionPart(h, app, earlier, order[..n], conns, j);
    }
  }

  /** Clients are serialised. The handler's calls across all sessions are those of one process that
      handles, client after client in accept order, the complete frames each client's stream held;
      every client gets the responses of that sequential execution. */
  lemma {:induction false} ClientsAreSerialised(cfg: Config, s: State, j: nat)
    requires Reachable(cfg, s) && j < |s.order|
    ensures forall k | 0 <= k < |s.order| :: s.order[k] < |s.conns|
    ensures s.log == Concatenated(s.order, s.conns)
    ensures s.log == Serve(cfg.handler, cfg.app, Requests(s.log))
    ensures var c := s.conns[s.order[j]];
            var before := Requests(Concatenated(s.order[..j], s.conns));
            && c.entries == Serve(cfg.handler, AppAfter(cfg.handler, cfg.app, before), Requests(c.entries))
            && c.written <= Frames(Responses(c.entries))
            && (SessionOf(s, s.order[j]).None? || !ReadyToHandle(SessionOf(s, s.order[j]).value) ==>
                  SplitFrames(c.taken).frames == Requests(c.entries))
  {
    ReachableInv(cfg, s);
    var i := s.order[j];
    assert ConnAt(cfg, s, i);
    SessionPart(cfg.handler, cfg.app, s.log, s.order, s.conns, j);
    HandledAreIssued(cfg.capacity, s.conns[i], SessionOf(s, i), Gone(s, i));
    WrittenFrames(s.conns[i], SessionOf(s, i));
  }

  /** Some application state is the one in which the session of client `i` began. */
  lemma {:induction false} SessionServed(cfg: Config, s: State, i: nat) returns (start: App)
    requires Reachable(cfg, s) && i < |s.conns|
    ensures s.conns[i].entries == Serve(cfg.handler, start, Requests(s.conns[i].entries))
  {
    ReachableInv(cfg, s);
    assert ConnAt(cfg, s, i);
    if s.conns[i].link.NotAccepted? {
      start := cfg.app;
    } else {
      var j: nat :| j < |s.order| && s.order[j] == i;
      start := AppAfter(cfg.handler, cfg.app, Requests(Concatenated(s.order[..j], s.conns)));
      SessionPart(cfg.handler, cfg.app, s.log, s.order, s.conns, j);
    }
  }

  /** A frame that never becomes complete never reaches the handler. */
  lemma {:induction false} PartialFrameUnhandled(cfg: Config, s: State, i: nat)
    requires Reachable(cfg, s) && i < |s.conns|
    ensures Requests(s.conns[i].entries) <= SplitFrames(s.conns[i].sent).frames
  {
    ReachableInv(cfg, s);
    assert ConnAt(cfg, s, i);
    HandledAreComplete(cfg.capacity, s.conns[i], SessionOf(s, i), Gone(s, i));
  }

  /** `run` never returns success, and it unlinks the socket path exactly when it returns an error. */
  lemma {:induction false} ServerOutcome(cfg: Config, s: State)
    requires Reachable(cfg, s)
    ensures s.unlinked <==> s.server.Stopped? && s.server.outcome.ReturnedError?
    ensures s.server.Stopped? && !s.unlinked <==> s.server == Stopped(Escaped)
  {
    ReachableInv(cfg, s);
  }

  /** What stops the server process, and how, read off the steps one by one: a failing accept or write, a
      system error other than end of file and bad descriptor, or an exception of the handler that `run`
      does not catch. */
  lemma {:induction false} ServerStops(cfg: Config, s: State, step: Step)
    requires Enabled(cfg, s, step) && !s.server.Stopped?
    ensures Apply(cfg, s, step).server == Stopped(Escaped)
            <==> step == ServerStep(Handle) && var outcome := cfg.handler(s.app, s.server.session.body);
                 outcome.Throws? && outcome.fault.NonSystemException?
    ensures Apply(cfg, s, step).server == Stopped(ReturnedError(GeneralServerError)) <==> step == ServerStep(AcceptFails)
    ensures Apply(cfg, s, step).server == Stopped(ReturnedError(UnableToSendMessage)) <==> step == ServerStep(RespondFails)
    ensures Apply(cfg, s, step).server == Stopped(ReturnedError(GeneralServerSessionError))
            <==> step == ServerStep(TakeFails(OtherSystemError))
                 || (step == ServerStep(Handle) && var outcome := cfg.handler(s.app, s.server.session.body);
                     outcome.Throws? && outcome.fault.OtherSystemError?)
    ensures Apply(cfg, s, step).server != Stopped(ReturnedError(NotEnoughBytesReceived))
  {
  }
}
