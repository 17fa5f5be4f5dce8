/** Exactly when a call is blocked, before or after an error. The two ends never wait for each other's bytes:
    a client may lag behind the responses by what earlier calls left unread, but it is never ahead. */
module Blocking {
  import opened Wrappers
  import opened Framing
  import opened Handling
  import opened Protocol
  import opened Invariant
  import opened LockStep
  import opened Progress

  /** The calls of the handler for requests before that of the running call. */
  function Earlier(c: Conn): seq<Entry>
    requires c.issued != []
  {
    if |c.entries| == |c.issued| then c.entries[..|c.issued| - 1] else c.entries
  }

  /** In a call the client has read no more than the responses to earlier requests and, while it waits for
      a body, the header that it read last. */
  ghost predicate NotAhead(c: Conn) {
    InCall(c.phase) ==>
      && c.issued != [] && |HeaderSeen(c.phase)| <= |c.received|
      && c.received[|c.received| - |HeaderSeen(c.phase)|..] == HeaderSeen(c.phase)
      && |c.received| <= |Frames(Responses(Earlier(c)))| + |HeaderSeen(c.phase)|
  }

  lemma {:induction false} StartNotAhead(capacity: nat, c: Conn, session: Option<Session>, gone: bool, request: ProtocolMessage)
    requires ConnInv(capacity, c, session, gone) && ClientReady(c, Start(request))
    ensures NotAhead(ClientApply(c, Start(request)))
  {
    HandledAreIssued(capacity, c, session, gone);
    WrittenFrames(c, session);
    assert |Requests(c.entries)| <= |c.issued|;
    assert |c.received| <= |c.written| <= |Frames(Responses(c.entries))|;
  }

  lemma {:induction false} ClientNotAhead(capacity: nat, c: Conn, session: Option<Session>, gone: bool, a: ClientAction)
    requires ConnInv(capacity, c, session, gone) && NotAhead(c) && ClientEnabled(capacity, c, gone, a)
    ensures NotAhead(ClientApply(c, a))
  {
    if a.Start? {
      StartNotAhead(capacity, c, session, gone, a.request);
    } else {
      OthersNotAhead(c, a);
    }
  }

  lemma {:induction false} OthersNotAhead(c: Conn, a: ClientAction)
    requires NotAhead(c) && ClientReady(c, a) && !a.Start?
    ensures NotAhead(ClientApply(c, a))
  {
    match a
    case ReadHeader(k) => HeaderNotAhead(c, k);
    case Write(k) => WriteNotAhead(c, k);
    case _ =>
  }

  lemma {:induction false} HeaderNotAhead(c: Conn, k: nat)
    requires NotAhead(c) && ClientReady(c, ReadHeader(k))
    ensures NotAhead(ClientApply(c, ReadHeader(k)))
  {
    if k == HEADER_SIZE {
      HeaderBijection(0, c.toClient[..k]);
      assert (c.received + c.toClient[..k])[|c.received|..] == c.toClient[..k];
    }
  }

  lemma {:induction false} WriteNotAhead(c: Conn, k: nat)
    requires NotAhead(c) && ClientReady(c, Write(k))
    ensures NotAhead(ClientApply(c, Write(k)))
  {
  }

  /** More calls of the handler leave the client no more ahead. */
  lemma {:induction false} GrownNotAhead(c: Conn, d: Conn)
    requires NotAhead(c) && c.entries <= d.entries && |d.entries| <= |d.issued|
    requires d.phase == c.phase && d.issued == c.issued && d.received == c.received
    ensures NotAhead(d)
  {
    if InCall(c.phase) {
      ResponsesGrow(Earlier(c), Earlier(d));
    }
  }

  /** The server leaves the client's end alone and only adds calls. */
  lemma {:induction false} ServerGrows(cfg: Config, s: State, a: ServerAction, i: nat)
    requires ServerEnabled(cfg, s, a) && i < |s.conns|
    ensures |ServerApply(cfg, s, a).conns| == |s.conns|
    ensures var c, d := s.conns[i], ServerApply(cfg, s, a).conns[i];
            d.phase == c.phase && d.issued == c.issued && d.received == c.received && c.entries <= d.entries
  {
    match a
    case Accept(_) =>
    case AcceptFails =>
    case Destroy =>
    case TakeFails(_) =>
    case RespondFails =>
    case Handle =>
    case _ =>
  }

  lemma {:induction false} StepNotAhead(cfg: Config, s: State, step: Step, i: nat)
    requires Inv(cfg, s) && Enabled(cfg, s, step) && i < |s.conns| && NotAhead(s.conns[i])
    ensures i < |Apply(cfg, s, step).conns| && NotAhead(Apply(cfg, s, step).conns[i])
  {
    var t := Apply(cfg, s, step);
    assert ConnAt(cfg, s, i);
    if step.ServerStep? {
      ServerGrows(cfg, s, step.move, i);
      StepKeeps(cfg, s, step);
      assert ConnAt(cfg, t, i);
      HandledAreIssued(cfg.capacity, t.conns[i], SessionOf(t, i), Gone(t, i));
      assert |Requests(t.conns[i].entries)| <= |t.conns[i].issued|;
      GrownNotAhead(s.conns[i], t.conns[i]);
    } else if step.client == i {
      ClientNotAhead(cfg.capacity, s.conns[i], SessionOf(s, i), Gone(s, i), step.action);
    }
  }

  lemma {:induction false} RunNotAhead(cfg: Config, steps: seq<Step>, states: seq<State>, k: nat, i: nat)
    requires Run(cfg, steps, states) && k < |states| && i < cfg.clients
    ensures i < |states[k].conns| && NotAhead(states[k].conns[i])
  {
    if k > 0 {
      RunNotAhead(cfg, steps, states, k - 1, i);
      RunKeeps(cfg, steps, states, k - 1);
      StepNotAhead(cfg, states[k - 1], steps[k - 1], i);
    }
  }

  /** With nothing in flight and nothing due, every request has been answered and every byte read. */
  lemma {:induction false} AllRead(capacity: nat, c: Conn, session: Session)
    requires c.link.Accepted? && ConnInv(capacity, c, Some(session), false) && MutualWait(c, session)
    ensures Requests(c.entries) == c.issued && AllReplied(c.entries)
    ensures c.received == Frames(Responses(c.entries))
  {
    AllHandled(capacity, c, session);
    assert c.received + [] == c.received;
  }

  /** The last frame read in full is at least a header long, so if only a header of it was read in this
      call, it is the frame of an empty response. */
  lemma {:induction false} LastFrame(front: Bytes, last: ProtocolMessage, received: Bytes, seen: Bytes)
    requires received == front + Frame(last) && |received| <= |front| + |seen| && |seen| <= HEADER_SIZE
    requires |seen| <= |received| && received[|received| - |seen|..] == seen
    ensures seen == Header(0)
  {
    assert |last| == 0 && |seen| == HEADER_SIZE;
    assert received[|front|..] == Frame(last) == Header(0) + [];
  }

  /** In no run do both ends wait for bytes, whatever errors came before. */
  lemma {:induction false} NoMutualWait(cfg: Config, s: State, i: nat)
    requires Reachable(cfg, s) && i < |s.conns| && SessionOf(s, i).Some?
    ensures !MutualWait(s.conns[i], SessionOf(s, i).value)
  {
    var c := s.conns[i];
    ReachableInv(cfg, s);
    assert ConnAt(cfg, s, i);
    var steps, states :| Run(cfg, steps, states) && states[|steps|] == s;
    RunNotAhead(cfg, steps, states, |steps|, i);
    if MutualWait(c, s.server.session) {
      MutualWaitIsAhead(cfg.capacity, c, s.server.session);
    }
  }

  lemma {:induction false} LastResponse(log: seq<Entry>, n: nat)
    requires |log| == n + 1 && log[n].outcome.Reply?
    ensures Frames(Responses(log)) == Frames(Responses(log[..n])) + Frame(log[n].outcome.response)
  {
    assert log == log[..n] + [log[n]];
    ResponsesSnoc(log[..n], log[n]);
    FramesSnoc(Responses(log[..n]), log[n].outcome.response);
  }

  lemma {:induction false} MutualWaitIsAhead(capacity: nat, c: Conn, session: Session)
    requires c.link.Accepted? && ConnInv(capacity, c, Some(session), false) && MutualWait(c, session)
    ensures !NotAhead(c)
  {
    AllRead(capacity, c, session);
    if NotAhead(c) {
      var n := |c.issued| - 1;
      assert |c.entries| == |Requests(c.entries)| == n + 1;
      LastResponse(c.entries, n);
      LastFrame(Frames(Responses(c.entries[..n])), c.entries[n].outcome.response, c.received, HeaderSeen(c.phase));
      HeaderBijection(0, Header(0));
      HeaderBijection(c.phase.expected, Header(0));
    }
  }

  /** In every run, before an error or after, a call is blocked exactly if both ends wait for room, it is
      queued behind another client that the server waits for, or it is queued at a server whose `run` has
      ended and that has not been destroyed. */
  lemma {:induction false} BlockedIff(cfg: Config, s: State, i: nat)
    requires cfg.capacity >= 1 && Reachable(cfg, s) && i < |s.conns| && InCall(s.conns[i].phase)
    ensures Blocked(cfg, s, i)
            <==> || (SessionOf(s, i).Some? && CrossBlocked(cfg.capacity, s.conns[i], SessionOf(s, i).value))
                 || QueuedBehind(cfg.capacity, s, i) || Abandoned(cfg.capacity, s, i)
  {
    ReachableInv(cfg, s);
    BlockedIffWaiting(cfg, s, i);
    if SessionOf(s, i).Some? {
      NoMutualWait(cfg, s, i);
    }
  }
}
