/** When a call can succeed at all: the client reads the header and the body with one read each, so
    exactly when each of them fits the channel. */
module Delivery {
  import opened Wrappers
  import opened Framing
  import opened Handling
  import opened Protocol
  import opened Invariant
  import opened LockStep
  import opened Progress

  /** No reply, early or late, and no body being waited for came through a channel smaller than a header;
      no reply is longer than the channel. */
  ghost predicate Fits(capacity: nat, c: Conn) {
    && (c.phase.AwaitBody? ==> capacity >= HEADER_SIZE)
    && (forall m <- c.replies :: |m| <= capacity && HEADER_SIZE <= capacity)
    && (forall m <- c.late :: |m| <= capacity && HEADER_SIZE <= capacity)
  }

  lemma {:induction false} ClientStepFits(capacity: nat, c: Conn, gone: bool, a: ClientAction)
    requires Fits(capacity, c) && ChannelInv(capacity, c) && ClientEnabled(capacity, c, gone, a)
    ensures Fits(capacity, ClientApply(c, a))
  {
  }

  /** The server never touches what the client has read. */
  lemma {:induction false} ServerFrame(cfg: Config, s: State, a: ServerAction, i: nat)
    requires ServerEnabled(cfg, s, a) && i < |s.conns|
    ensures |ServerApply(cfg, s, a).conns| == |s.conns|
    ensures var c, d := s.conns[i], ServerApply(cfg, s, a).conns[i]; d.phase == c.phase && d.replies == c.replies && d.late == c.late
  {
    match a
    case Accept(_) =>
    case AcceptFails =>
    case Destroy =>
    case TakeFails(_) =>
    case RespondFails =>
    case Handle =>
    case _ =>
  }

  lemma {:induction false} StepFits(cfg: Config, s: State, step: Step, i: nat)
    requires Inv(cfg, s) && Enabled(cfg, s, step) && i < |s.conns| && Fits(cfg.capacity, s.conns[i])
    ensures i < |Apply(cfg, s, step).conns| && Fits(cfg.capacity, Apply(cfg, s, step).conns[i])
  {
    if step.ServerStep? {
      ServerFrame(cfg, s, step.move, i);
    } else if step.client == i {
      assert ConnAt(cfg, s, i);
      ClientStepFits(cfg.capacity, s.conns[i], Gone(s, i), step.action);
    }
  }

  lemma {:induction false} RunFits(cfg: Config, steps: seq<Step>, states: seq<State>, k: nat, i: nat)
    requires Run(cfg, steps, states) && k < |states| && i < cfg.clients
    ensures i < |states[k].conns| && Fits(cfg.capacity, states[k].conns[i])
  {
    if k > 0 {
      RunFits(cfg, steps, states, k - 1, i);
      RunKeeps(cfg, steps, states, k - 1);
      StepFits(cfg, states[k - 1], steps[k - 1], i);
    }
  }

  /** A receive never succeeds, before an error or after, through a channel that cannot hold the header or
      the body at once. */
  lemma {:induction false} RepliesFit(cfg: Config, s: State, i: nat, m: ProtocolMessage)
    requires Reachable(cfg, s) && i < |s.conns| && (m in s.conns[i].replies || m in s.conns[i].late)
    ensures cfg.capacity >= HEADER_SIZE && cfg.capacity >= |m|
  {
    ReachableInv(cfg, s);
    var steps, states :| Run(cfg, steps, states) && states[|steps|] == s;
    RunFits(cfg, steps, states, |steps|, i);
  }

  /** The handler has answered the running call and the client waits for the header. */
  predicate Answering(c: Conn, response: ProtocolMessage) {
    && CallRunning(c) && Handled(c) && c.phase.AwaitHeader?
    && c.entries != [] && c.entries[|c.entries| - 1].outcome.Reply?
    && c.entries[|c.entries| - 1].outcome.response == response
  }

  /** The session writes on until at least `wanted` bytes of the response are in the channel. */
  lemma {:induction false} WriteOn(cfg: Config, s: State, i: nat, wanted: nat) returns (steps: seq<Step>, t: State)
    requires Inv(cfg, s) && i < |s.conns| && CallRunning(s.conns[i]) && Handled(s.conns[i])
    requires s.server.Serving? && s.server.client == i
    requires wanted <= cfg.capacity && wanted <= |s.conns[i].toClient| + |Unwritten(s.server.session)|
    ensures Path(cfg, s, steps, t) && Inv(cfg, t) && |t.conns| == |s.conns|
    ensures wanted <= |t.conns[i].toClient|
    ensures t.server.Serving? && t.server.client == i
    ensures var c, d := s.conns[i], t.conns[i];
            d == c.(written := d.written, toClient := d.toClient)
  {
    var c := s.conns[i];
    if |c.toClient| >= wanted {
      steps, t := [], s;
    } else {
      var step := ServerStep(Respond(wanted - |c.toClient|));
      assert ConnAt(cfg, s, i);
      PathStep(cfg, s, step);
      StepKeeps(cfg, s, step);
      steps, t := [step], Apply(cfg, s, step);
    }
  }

  /** The one read of the header, once it is all there. */
  lemma {:induction false} HeaderArrives(cfg: Config, s: State, i: nat, response: ProtocolMessage) returns (t: State)
    requires Inv(cfg, s) && i < |s.conns| && Answering(s.conns[i], response)
    requires s.server.Serving? && s.server.client == i && HEADER_SIZE <= |s.conns[i].toClient|
    ensures Path(cfg, s, [ClientStep(i, ReadHeader(HEADER_SIZE))], t) && Inv(cfg, t)
    ensures |t.conns| == |s.conns| && t.server == s.server
    ensures var c, d := s.conns[i], t.conns[i];
            && d.phase == AwaitBody(|response|) && CallRunning(d) && Handled(d) && d.replies == c.replies
            && d.entries == c.entries && d.toClient + Unwritten(t.server.session) == response
  {
    var step := ClientStep(i, ReadHeader(HEADER_SIZE));
    PathStep(cfg, s, step);
    StepKeeps(cfg, s, step);
    t := Apply(cfg, s, step);
    assert ConnAt(cfg, t, i);
    HeaderRead(cfg.capacity, s.conns[i], t.conns[i], t.server.session, response);
  }

  lemma {:induction false} HeaderRead(capacity: nat, c: Conn, d: Conn, session: Session, response: ProtocolMessage)
    requires Answering(c, response) && ClientReady(c, ReadHeader(HEADER_SIZE)) && d == ClientApply(c, ReadHeader(HEADER_SIZE))
    requires ConnInv(capacity, d, Some(session), false)
    ensures d.phase == AwaitBody(|response|) && d.toClient + Unwritten(session) == response
  {
    AfterHandling(capacity, d, session);
    SameFrame(d.phase.expected, d.toClient + Unwritten(session), response);
  }

  lemma {:induction false} SameFrame(n: uint32, rest: Bytes, response: ProtocolMessage)
    requires Header(n) + rest == Frame(response)
    ensures n == |response| && rest == response
  {
    assert (Header(n) + rest)[..HEADER_SIZE] == Header(n) && Frame(response)[..HEADER_SIZE] == Header(|response|);
    HeaderBijection(n, Header(n));
    HeaderBijection(|response|, Header(n));
    Cancel(Header(n), rest, response);
  }

  lemma {:induction false} BodyArrives(cfg: Config, s: State, i: nat, response: ProtocolMessage) returns (t: State)
    requires Inv(cfg, s) && i < |s.conns| && s.conns[i].phase == AwaitBody(|response|) && !s.conns[i].failed
    requires s.conns[i].toClient == response
    ensures Path(cfg, s, [ClientStep(i, ReadBody(|response|))], t) && Inv(cfg, t)
    ensures |t.conns| == |s.conns| && t.conns[i].phase.Idle? && !t.conns[i].failed
    ensures t.conns[i].replies == s.conns[i].replies + [response]
  {
    var step := ClientStep(i, ReadBody(|response|));
    PathStep(cfg, s, step);
    StepKeeps(cfg, s, step);
    t := Apply(cfg, s, step);
    assert response[..|response|] == response;
  }

  /** Conversely, once the handler has answered, the call can succeed with its response whenever the
      channel can hold the header and can hold the body. */
  lemma {:induction false} CallCanSucceed(cfg: Config, s: State, i: nat, response: ProtocolMessage)
    returns (steps: seq<Step>, t: State)
    requires Inv(cfg, s) && i < |s.conns| && Answering(s.conns[i], response)
    requires cfg.capacity >= HEADER_SIZE && cfg.capacity >= |response|
    ensures Path(cfg, s, steps, t) && Inv(cfg, t)
    ensures |t.conns| == |s.conns| && t.conns[i].phase.Idle? && !t.conns[i].failed
    ensures t.conns[i].replies == s.conns[i].replies + [response]
  {
    assert ConnAt(cfg, s, i);
    AfterHandling(cfg.capacity, s.conns[i], s.server.session);
    assert [] + (s.conns[i].toClient + Unwritten(s.server.session)) == Frame(response);
    var a, s1 := WriteOn(cfg, s, i, HEADER_SIZE);
    var s2 := HeaderArrives(cfg, s1, i, response);
    var b, s3 := WriteOn(cfg, s2, i, |response|);
    WholeBody(cfg, s2, s3, i, response);
    t := BodyArrives(cfg, s3, i, response);
    var x, y := [ClientStep(i, ReadHeader(HEADER_SIZE))], [ClientStep(i, ReadBody(|response|))];
    PathTwice(cfg, s, a, s1, x, s2);
    PathTwice(cfg, s, a + x, s2, b, s3);
    PathTwice(cfg, s, a + x + b, s3, y, t);
    steps := a + x + b + y;
  }

  lemma {:induction false} WholeBody(cfg: Config, s: State, t: State, i: nat, response: ProtocolMessage)
    requires Inv(cfg, t) && i < |s.conns| == |t.conns| && t.server.Serving? && t.server.client == i
    requires s.conns[i].phase == AwaitBody(|response|) && CallRunning(s.conns[i]) && Handled(s.conns[i])
    requires s.conns[i].entries != [] && s.conns[i].entries[|s.conns[i].entries| - 1].outcome.Reply?
    requires s.conns[i].entries[|s.conns[i].entries| - 1].outcome.response == response
    requires t.conns[i] == s.conns[i].(written := t.conns[i].written, toClient := t.conns[i].toClient)
    requires |t.conns[i].toClient| >= |response|
    ensures t.conns[i].toClient == response
  {
    assert ConnAt(cfg, t, i);
    AfterHandling(cfg.capacity, t.conns[i], t.server.session);
    SameFrame(|response|, t.conns[i].toClient + Unwritten(t.server.session), response);
  }

  // From the request to the response

  /** What the handler does with the running request. */
  function Due(cfg: Config, s: State, i: nat): Entry
    requires i < |s.conns| && s.conns[i].issued != []
  {
    var request := s.conns[i].issued[|s.conns[i].issued| - 1];
    Entry(request, cfg.handler(s.app, request))
  }

  /** Until the handler is called, the next move is a write, a take or the call itself. */
  lemma {:induction false} MoveToHandler(cfg: Config, s: State, i: nat) returns (step: Step)
    requires cfg.capacity >= 1 && Inv(cfg, s) && i < |s.conns| && CallRunning(s.conns[i]) && !Handled(s.conns[i])
    ensures Advances(i, step) && Enabled(cfg, s, step) && s.server.Serving? && s.server.client == i
    ensures step == ServerStep(Handle) || step == ClientStep(i, Write(1))
            || step == ServerStep(TakeHeader(1)) || step == ServerStep(TakeBody(1))
  {
    assert ConnAt(cfg, s, i);
    NeitherWaits(cfg.capacity, s.conns[i], s.server.session);
    BeforeHandling(cfg.capacity, s.conns[i], s.server.session);
    NextMoveEnabled(cfg, s, i);
    step := NextMove(cfg.capacity, s, i);
  }

  /** A move of bytes towards the handler changes nothing that the call's outcome depends on. */
  lemma {:induction false} BytesOnly(cfg: Config, s: State, i: nat, step: Step)
    requires i < |s.conns| && s.server.Serving? && s.server.client == i && Enabled(cfg, s, step)
    requires InCall(s.conns[i].phase)
    requires step == ClientStep(i, Write(1)) || step == ServerStep(TakeHeader(1)) || step == ServerStep(TakeBody(1))
    ensures var t := Apply(cfg, s, step);
            && |t.conns| == |s.conns| && t.app == s.app && t.server.Serving? && t.server.client == i
            && t.conns[i].entries == s.conns[i].entries && t.conns[i].issued == s.conns[i].issued
            && t.conns[i].replies == s.conns[i].replies && t.conns[i].failed == s.conns[i].failed
            && t.conns[i].link == s.conns[i].link && InCall(t.conns[i].phase)
  {
  }

  /** The last request handled is the last one issued. */
  lemma {:induction false} LastHandled(capacity: nat, d: Conn, session: Option<Session>, gone: bool, e: Entry)
    requires ConnInv(capacity, d, session, gone) && Handled(d) && d.entries != []
    requires e == d.entries[|d.entries| - 1]
    ensures d.issued != [] && e.request == d.issued[|d.issued| - 1]
  {
    HandledAreIssued(capacity, d, session, gone);
    assert Requests(d.entries)[|d.entries| - 1] == e.request;
  }

  /** A call that is handled and answered waits for the header of its reply. */
  lemma {:induction false} AnswerDue(capacity: nat, d: Conn, session: Session, c: Conn, e: Entry)
    requires ConnInv(capacity, d, Some(session), false) && CallRunning(d) && Handled(d)
    requires d == c.(entries := c.entries + [e]) && e.outcome.Reply? && !c.phase.AwaitBody?
    ensures Answering(d, e.outcome.response)
  {
    AfterHandling(capacity, d, session);
  }

  lemma {:induction false} HandleFrame(cfg: Config, s: State, e: Entry)
    requires s.server.Serving? && s.server.client < |s.conns| && ServerEnabled(cfg, s, Handle)
    requires e == Entry(s.server.session.body, cfg.handler(s.app, s.server.session.body))
    ensures var i, t := s.server.client, ServerApply(cfg, s, Handle);
            var c, d := s.conns[i], ServerApply(cfg, s, Handle).conns[i];
            && |t.conns| == |s.conns|
            && d == c.(entries := c.entries + [e], link := if e.outcome.Reply? then c.link else Ended(EndOf(e.outcome.fault)))
            && (e.outcome.Reply? ==> t.server == Serving(i, Writing(Frame(e.outcome.response))))
  {
  }

  /** The handler is called on the request that the client issued last. */
  lemma {:induction false} HandleDue(cfg: Config, s: State, i: nat)
    requires Inv(cfg, s) && i < |s.conns| && CallRunning(s.conns[i]) && !Handled(s.conns[i])
    requires s.server.Serving? && s.server.client == i && Enabled(cfg, s, ServerStep(Handle))
    ensures s.conns[i].issued != []
    ensures var c, t := s.conns[i], Apply(cfg, s, ServerStep(Handle));
            && |t.conns| == |s.conns|
            && t.conns[i].entries == c.entries + [Due(cfg, s, i)] && t.conns[i].replies == c.replies
            && (Due(cfg, s, i).outcome.Reply? ==> t.server.Serving? && Answering(t.conns[i], Due(cfg, s, i).outcome.response))
  {
    var c, t := s.conns[i], Apply(cfg, s, ServerStep(Handle));
    var e := Entry(s.server.session.body, cfg.handler(s.app, s.server.session.body));
    assert ConnAt(cfg, s, i);
    Outstanding(cfg.capacity, c, Some(s.server.session), false);
    BeforeHandling(cfg.capacity, c, s.server.session);
    HandleFrame(cfg, s, e);
    StepKeeps(cfg, s, ServerStep(Handle));
    assert ConnAt(cfg, t, i);
    LastHandled(cfg.capacity, t.conns[i], SessionOf(t, i), Gone(t, i), e);
    if e.outcome.Reply? {
      AnswerDue(cfg.capacity, t.conns[i], t.server.session, c, e);
    }
  }

  /** A running request can always be brought to the handler. */
  lemma {:induction false} CanBeHandled(cfg: Config, s: State, i: nat) returns (steps: seq<Step>, t: State)
    requires cfg.capacity >= 1 && Inv(cfg, s) && i < |s.conns| && CallRunning(s.conns[i]) && !Handled(s.conns[i])
    ensures Path(cfg, s, steps, t) && Inv(cfg, t) && |t.conns| == |s.conns| && s.conns[i].issued != []
    ensures var c := s.conns[i];
            && t.conns[i].entries == c.entries + [Due(cfg, s, i)] && t.conns[i].replies == c.replies
            && (Due(cfg, s, i).outcome.Reply? ==> t.server.Serving? && Answering(t.conns[i], Due(cfg, s, i).outcome.response))
    decreases if s.server.Serving? then Work(s.conns[i], s.server.session) else 0
  {
    var step := MoveToHandler(cfg, s, i);
    var u := Apply(cfg, s, step);
    PathStep(cfg, s, step);
    StepKeeps(cfg, s, step);
    if step == ServerStep(Handle) {
      HandleDue(cfg, s, i);
      steps, t := [step], u;
    } else {
      BytesOnly(cfg, s, i, step);
      AdvanceIsCloser(cfg, s, i, step);
      var later;
      later, t := CanBeHandled(cfg, u, i);
      PathTwice(cfg, s, [step], u, later, t);
      steps := [step] + later;
    }
  }

  /** Any running call can return the handler's response to its request, whenever the handler answers
      and the channel can hold the header and can hold the response. */
  lemma {:induction false} RequestCanSucceed(cfg: Config, s: State, i: nat) returns (steps: seq<Step>, t: State)
    requires Inv(cfg, s) && i < |s.conns| && CallRunning(s.conns[i]) && !Handled(s.conns[i])
    requires s.conns[i].issued != [] && Due(cfg, s, i).outcome.Reply?
    requires cfg.capacity >= HEADER_SIZE && cfg.capacity >= |Due(cfg, s, i).outcome.response|
    ensures Path(cfg, s, steps, t) && Inv(cfg, t)
    ensures |t.conns| == |s.conns| && t.conns[i].phase.Idle? && !t.conns[i].failed
    ensures t.conns[i].replies == s.conns[i].replies + [Due(cfg, s, i).outcome.response]
  {
    var a, u := CanBeHandled(cfg, s, i);
    var b;
    b, t := CallCanSucceed(cfg, u, i, Due(cfg, s, i).outcome.response);
    PathTwice(cfg, s, a, u, b, t);
    steps := a + b;
  }
}
