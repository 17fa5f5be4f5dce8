/** When a call can block, and that it ends after finitely many steps: before the client's first error it
    blocks only in the queue behind another client. */
module Progress {
  import opened Wrappers
  import opened Framing
  import opened Handling
  import opened Protocol
  import opened Invariant
  import opened LockStep

  /** Steps by which the call of client `i` goes on or ends, or the server comes nearer to serving it:
      all but the decisions of the clients to connect, to start a call and to close, and of the owner to
      destroy the server, the accepting of other clients, and a failure to accept. */
  predicate Advances(i: nat, step: Step) {
    match step
    case ClientStep(j, a) => j == i && !a.Connect? && !a.Start? && !a.Close?
    case ServerStep(a) => !a.AcceptFails? && !a.Destroy? && (a.Accept? ==> a.client == i)
  }

  ghost predicate Blocked(cfg: Config, s: State, i: nat) {
    forall step | Advances(i, step) :: !Enabled(cfg, s, step)
  }

  /** The client waits for room in its channel, or for bytes from it. */
  predicate ClientWaits(capacity: nat, c: Conn) {
    match c.phase
    case Sending(_) => |c.toServer| == capacity
    case AwaitHeader => c.toClient == []
    case AwaitBody(expected) => expected > 0 && c.toClient == []
    case _ => false
  }

  /** The session waits for room in its channel, or for bytes from it, and its client is still there. */
  predicate SessionWaits(capacity: nat, c: Conn, session: Session) {
    && !c.phase.Closed? && !ReadyToHandle(session)
    && if session.Writing? then |c.toClient| == capacity else c.toServer == []
  }

  /** Client and server each wait for room in a channel that only the other drains. */
  predicate CrossBlocked(capacity: nat, c: Conn, session: Session) {
    c.phase.Sending? && session.Writing? && |c.toServer| == |c.toClient| == capacity
  }

  /** Client and server each wait for bytes that only the other supplies. */
  predicate MutualWait(c: Conn, session: Session) {
    && (c.phase.AwaitHeader? || (c.phase.AwaitBody? && c.phase.expected > 0))
    && (session.ReadingHeader? || (session.ReadingBody? && |session.body| < session.need))
    && c.toServer == [] && c.toClient == []
  }

  /** The client waits for a server that waits for another client. */
  predicate QueuedBehind(capacity: nat, s: State, i: nat)
    requires i < |s.conns|
  {
    && s.conns[i].link.NotAccepted? && ClientWaits(capacity, s.conns[i])
    && s.server.Serving? && s.server.client < |s.conns|
    && SessionWaits(capacity, s.conns[s.server.client], s.server.session)
  }

  /** The client waits in the queue of a server whose `run` has ended. */
  predicate Abandoned(capacity: nat, s: State, i: nat)
    requires i < |s.conns|
  {
    s.conns[i].link.NotAccepted? && ClientWaits(capacity, s.conns[i]) && s.server.Stopped? && !s.destroyed
  }

  /** What a client does that does not wait. */
  function ClientNext(p: ClientPhase): ClientAction {
    match p
    case Sending(_) => Write(1)
    case AwaitBody(expected) => ReadBody(if expected == 0 then 0 else 1)
    case _ => ReadHeader(1)
  }

  /** How a call ends whose server is gone. */
  function GoneNext(p: ClientPhase): ClientAction {
    match p
    case Sending(_) => WriteFails
    case AwaitBody(expected) => if expected == 0 then ReadBody(0) else ReadFails
    case _ => ReadFails
  }

  /** What a session does that does not wait. */
  function SessionNext(c: Conn, session: Session): ServerAction {
    if ReadyToHandle(session) then Handle
    else if c.phase.Closed? && session.Writing? then RespondFails
    else if c.phase.Closed? && c.toServer == [] then TakeFails(EndOfFile)
    else
      match session
      case ReadingHeader(_) => TakeHeader(1)
      case ReadingBody(_, _) => TakeBody(1)
      case Writing(_) => Respond(1)
  }

  /** A step of the call, or of the server, that is possible when neither end waits for the other. */
  function NextMove(capacity: nat, s: State, i: nat): Step
    requires i < |s.conns| && (s.server.Serving? ==> s.server.client < |s.conns|)
  {
    var c := s.conns[i];
    if Gone(s, i) then ClientStep(i, GoneNext(c.phase))
    else if s.server.Listening? then ServerStep(Accept(i))
    else if !ClientWaits(capacity, c) then ClientStep(i, ClientNext(c.phase))
    else if s.server.Serving? then ServerStep(SessionNext(s.conns[s.server.client], s.server.session))
    else ServerStep(Destroy)
  }

  lemma {:induction false} ClientNextEnabled(capacity: nat, c: Conn)
    requires |c.toServer| <= capacity && InCall(c.phase) && (c.phase.Sending? ==> c.phase.left != [])
    requires !ClientWaits(capacity, c)
    ensures ClientEnabled(capacity, c, false, ClientNext(c.phase))
  {
  }

  lemma {:induction false} SessionNextEnabled(cfg: Config, s: State)
    requires Inv(cfg, s) && s.server.Serving?
    ensures s.server.client < |s.conns|
    ensures var c, session := s.conns[s.server.client], s.server.session;
            !SessionWaits(cfg.capacity, c, session) ==> ServerEnabled(cfg, s, SessionNext(c, session))
  {
    ServingConn(cfg, s);
    assert SessionAt(s.conns[s.server.client], s.server.session);
  }

  lemma {:induction false} NextMoveEnabled(cfg: Config, s: State, i: nat)
    requires Inv(cfg, s) && i < |s.conns| && InCall(s.conns[i].phase)
    requires || Gone(s, i) || s.server.Listening? || !ClientWaits(cfg.capacity, s.conns[i])
             || (s.server.Serving? && !SessionWaits(cfg.capacity, s.conns[s.server.client], s.server.session))
    ensures s.server.Serving? ==> s.server.client < |s.conns|
    ensures Advances(i, NextMove(cfg.capacity, s, i)) && Enabled(cfg, s, NextMove(cfg.capacity, s, i))
  {
    assert ConnAt(cfg, s, i);
    if s.server.Serving? {
      SessionNextEnabled(cfg, s);
    }
    if !Gone(s, i) && !ClientWaits(cfg.capacity, s.conns[i]) {
      ClientNextEnabled(cfg.capacity, s.conns[i]);
    }
  }

  lemma {:induction false} WaitingBlocks(cfg: Config, s: State, i: nat)
    requires i < |s.conns| && !Gone(s, i) && ClientWaits(cfg.capacity, s.conns[i])
    requires || s.server.Stopped?
             || (s.server.Serving? && s.server.client < |s.conns|
                 && SessionWaits(cfg.capacity, s.conns[s.server.client], s.server.session))
    ensures Blocked(cfg, s, i)
  {
  }

  /** What blocks a call, read off the invariant alone; that its second case never arises takes the
      history of the run. */
  lemma {:induction false} BlockedIffWaiting(cfg: Config, s: State, i: nat)
    requires cfg.capacity >= 1 && Inv(cfg, s) && i < |s.conns| && InCall(s.conns[i].phase)
    ensures Blocked(cfg, s, i)
            <==> || (SessionOf(s, i).Some? && CrossBlocked(cfg.capacity, s.conns[i], SessionOf(s, i).value))
                 || (SessionOf(s, i).Some? && MutualWait(s.conns[i], SessionOf(s, i).value))
                 || QueuedBehind(cfg.capacity, s, i) || Abandoned(cfg.capacity, s, i)
  {
    assert ConnAt(cfg, s, i);
    if s.server.Serving? {
      ServingConn(cfg, s);
    }
    if !Gone(s, i) && ClientWaits(cfg.capacity, s.conns[i])
       && (s.server.Stopped? || (s.server.Serving? && SessionWaits(cfg.capacity, s.conns[s.server.client], s.server.session))) {
      WaitingBlocks(cfg, s, i);
    } else {
      NextMoveEnabled(cfg, s, i);
      assert !Blocked(cfg, s, i);
    }
  }

  /** Deadlock freedom before the client's first error: its call is blocked exactly while it is in the
      queue, behind another client that the server waits for or at a server whose `run` has ended, and
      never once it has been accepted. */
  lemma {:induction false} BlockedOnlyInQueue(cfg: Config, s: State, i: nat)
    requires cfg.capacity >= 1 && Inv(cfg, s) && i < |s.conns|
    requires InCall(s.conns[i].phase) && !s.conns[i].failed
    ensures Blocked(cfg, s, i) <==> QueuedBehind(cfg.capacity, s, i) || Abandoned(cfg.capacity, s, i)
    ensures !s.conns[i].link.NotAccepted? ==> !Blocked(cfg, s, i)
  {
    assert ConnAt(cfg, s, i);
    BlockedIffWaiting(cfg, s, i);
    if s.conns[i].link.Accepted? {
      NeitherWaits(cfg.capacity, s.conns[i], s.server.session);
    }
  }

  lemma {:induction false} NeitherWaits(capacity: nat, c: Conn, session: Session)
    requires ConnInv(capacity, c, Some(session), false) && CallRunning(c)
    ensures !CrossBlocked(capacity, c, session) && !MutualWait(c, session)
  {
    if Handled(c) {
      AfterHandling(capacity, c, session);
      if MutualWait(c, session) {
        HeaderIsNoFrame(HeaderSeen(c.phase), c.phase, c.entries[|c.entries| - 1].outcome.response);
      }
    } else {
      BeforeHandling(capacity, c, session);
      if MutualWait(c, session) {
        NothingInFlight(capacity, c, session);
      }
    }
  }

  /** The header of a non-empty body is not yet the whole response. */
  lemma {:induction false} HeaderIsNoFrame(seen: Bytes, p: ClientPhase, response: ProtocolMessage)
    requires seen == HeaderSeen(p) && (p.AwaitBody? ==> p.expected > 0)
    ensures seen + ([] + []) != Frame(response)
  {
    if p.AwaitBody? && seen + ([] + []) == Frame(response) {
      assert |seen + ([] + [])| == HEADER_SIZE;
      assert response == [];
      assert seen + ([] + []) == seen && Header(0) + [] == Header(0);
      HeaderBijection(0, Header(0));
      HeaderBijection(p.expected, Header(0));
    }
  }

  /** A fully sent and fully taken request leaves no partial frame at the server. */
  lemma {:induction false} NothingInFlight(capacity: nat, c: Conn, session: Session)
    requires ConnInv(capacity, c, Some(session), false) && CallRunning(c)
    requires !c.phase.Sending? && c.toServer == [] && !ReadyToHandle(session)
    ensures Handled(c)
  {
    AllHandled(capacity, c, session);
    assert |Requests(c.entries)| == |c.issued|;
  }

  // Termination

  /** Bytes the outstanding request, or later its response, still has to move; twice over for bytes
      not yet written. */
  function Work(c: Conn, session: Session): nat {
    if Handled(c) then 2 * |Unwritten(session)| + |c.toClient| else 2 * |Unsent(c.phase)| + |c.toServer|
  }

  /** `(d, later)` is strictly closer to the end of the call than `(c, session)`. */
  predicate Closer(d: Conn, later: Session, c: Conn, session: Session) {
    (Handled(d) && !Handled(c)) || ((Handled(d) <==> Handled(c)) && Work(d, later) < Work(c, session))
  }

  lemma {:induction false} ClientCloser(capacity: nat, c: Conn, session: Session, a: ClientAction)
    requires ConnInv(capacity, c, Some(session), false) && CallRunning(c)
    requires a.Write? || a.ReadHeader? || a.ReadBody?
    requires ClientEnabled(capacity, c, false, a)
    ensures var d := ClientApply(c, a); !CallRunning(d) || Closer(d, session, c, session)
  {
    if Handled(c) {
      AfterHandling(capacity, c, session);
    } else {
      BeforeHandling(capacity, c, session);
    }
  }

  lemma {:induction false} SessionCloser(capacity: nat, c: Conn, session: Session, a: ServerAction)
    requires ConnInv(capacity, c, Some(session), false) && CallRunning(c)
    requires SessionEnabled(capacity, c, session, a)
    ensures var (d, later) := SessionApply(c, session, a); Closer(d, later, c, session)
  {
    if Handled(c) {
      AfterHandling(capacity, c, session);
    } else {
      BeforeHandling(capacity, c, session);
    }
  }

  /** Every advancing step ends the call, or its session, or brings its end strictly closer. */
  lemma {:induction false} AdvanceIsCloser(cfg: Config, s: State, i: nat, step: Step)
    requires Inv(cfg, s) && i < |s.conns| && CallRunning(s.conns[i])
    requires Advances(i, step) && Enabled(cfg, s, step)
    ensures s.server.Serving? && i < |Apply(cfg, s, step).conns|
    ensures var t := Apply(cfg, s, step);
            if CallRunning(t.conns[i])
            then t.server.Serving? && Closer(t.conns[i], t.server.session, s.conns[i], s.server.session)
            else !InCall(t.conns[i].phase) || (t.conns[i].link.Ended? && !t.conns[i].failed)
  {
    assert ConnAt(cfg, s, i);
    if step.ClientStep? {
      ClientCloser(cfg.capacity, s.conns[i], s.server.session, step.action);
    } else if step.move.Handle? {
      HandleIsCloser(cfg, s, i);
    } else {
      SessionCloser(cfg.capacity, s.conns[i], s.server.session, step.move);
    }
  }

  lemma {:induction false} HandleIsCloser(cfg: Config, s: State, i: nat)
    requires Inv(cfg, s) && i < |s.conns| && CallRunning(s.conns[i]) && ServerEnabled(cfg, s, Handle)
    ensures var t := HandleRequest(cfg, s);
            && i < |t.conns| && InCall(t.conns[i].phase) && !t.conns[i].failed
            && if t.conns[i].link.Accepted? then t.server.Serving? && Handled(t.conns[i]) && !Handled(s.conns[i])
               else t.conns[i].link.Ended?
  {
    assert ConnAt(cfg, s, i);
    if Handled(s.conns[i]) {
      AfterHandling(cfg.capacity, s.conns[i], s.server.session);
      assert false;
    }
    Outstanding(cfg.capacity, s.conns[i], Some(s.server.session), false);
  }

  /** Any other step is the client closing, or one of another client that leaves the call alone. */
  lemma {:induction false} OtherSteps(cfg: Config, s: State, i: nat, step: Step)
    requires Inv(cfg, s) && i < |s.conns| && CallRunning(s.conns[i])
    requires !Advances(i, step) && Enabled(cfg, s, step)
    ensures step == ClientStep(i, Close)
            || (Apply(cfg, s, step).conns[i] == s.conns[i] && Apply(cfg, s, step).server == s.server)
  {
    assert ConnAt(cfg, s, i);
  }

  /** How far a client has got in its call. */
  function Rank(p: ClientPhase): nat {
    match p
    case Sending(left) => 2 + |left|
    case AwaitHeader => 2
    case AwaitBody(_) => 1
    case _ => 0
  }

  /** Whatever came before and whether or not the server is there, each step of the calling client ends
      the call or brings its end strictly closer. */
  lemma {:induction false} OwnStepIsCloser(cfg: Config, s: State, i: nat, a: ClientAction)
    requires i < |s.conns| && InCall(s.conns[i].phase)
    requires Advances(i, ClientStep(i, a)) && Enabled(cfg, s, ClientStep(i, a))
    ensures var d := Apply(cfg, s, ClientStep(i, a)).conns[i];
            !InCall(d.phase) || Rank(d.phase) < Rank(s.conns[i].phase)
  {
  }

  /** A call whose session has ended, or whose server has been destroyed, can end in one step. */
  lemma {:induction false} GoneCallEnds(cfg: Config, s: State, i: nat)
    requires Inv(cfg, s) && i < |s.conns| && InCall(s.conns[i].phase) && Gone(s, i)
    ensures var step := ClientStep(i, GoneNext(s.conns[i].phase));
            && Advances(i, step) && Enabled(cfg, s, step)
            && |Apply(cfg, s, step).conns| == |s.conns| && !InCall(Apply(cfg, s, step).conns[i].phase)
  {
  }

  // The end of every call

  predicate Endable(s: State, i: nat) {
    i < |s.conns| && InCall(s.conns[i].phase) && !s.conns[i].failed
  }

  /** The call is in the queue, and the server is not accepting. */
  predicate Held(s: State, i: nat)
    requires i < |s.conns|
  {
    s.conns[i].link.NotAccepted? && !s.server.Listening? && !s.destroyed
  }

  /** Decisions of others that let a held call go on: another client closes, or the server is destroyed. */
  predicate Releases(i: nat, step: Step) {
    match step
    case ClientStep(j, a) => j != i && a.Close?
    case ServerStep(a) => a.Destroy?
  }

  /** The session served ahead of the call, or an empty one. */
  function Ahead(s: State): (Conn, Session) {
    if s.server.Serving? && s.server.client < |s.conns| then (s.conns[s.server.client], s.server.session)
    else (NEW_CONN, ReadingHeader([]))
  }

  /** The way to the front of the queue and out of it. */
  function Stage(s: State, i: nat): nat
    requires i < |s.conns|
  {
    var (front, session) := Ahead(s);
    if Gone(s, i) then 0
    else if s.conns[i].link.Accepted? then 1
    else if !s.server.Serving? then 2
    else if !front.phase.Closed? then 6
    else if session.Writing? then 3
    else if ReadyToHandle(session) then 4
    else 5
  }

  /** What is left to do within a stage. */
  function Left(s: State, i: nat): nat
    requires i < |s.conns|
  {
    if Stage(s, i) == 1 && s.server.Serving? then Work(s.conns[i], s.server.session) else |Ahead(s).0.toServer|
  }

  predicate Nearer(t: State, s: State, i: nat)
    requires i < |s.conns| && i < |t.conns|
  {
    || Stage(t, i) < Stage(s, i)
    || (Stage(t, i) == Stage(s, i) == 1 && Handled(t.conns[i]) && !Handled(s.conns[i]))
    || (Stage(t, i) == Stage(s, i) && (Stage(s, i) == 1 ==> (Handled(t.conns[i]) <==> Handled(s.conns[i])))
        && Left(t, i) < Left(s, i))
  }

  lemma {:induction false} AcceptIsNearer(cfg: Config, s: State, i: nat)
    requires Inv(cfg, s) && Endable(s, i) && s.conns[i].link.NotAccepted? && s.server.Listening?
    ensures Enabled(cfg, s, ServerStep(Accept(i)))
    ensures Endable(Apply(cfg, s, ServerStep(Accept(i))), i) && Nearer(Apply(cfg, s, ServerStep(Accept(i))), s, i)
    ensures !Held(Apply(cfg, s, ServerStep(Accept(i))), i)
  {
  }

  /** The step that lets a held call go on: the client in front closes, its session comes to its end, and
      if that stops the server, the server is destroyed. */
  function Release(s: State): Step {
    var (front, session) := Ahead(s);
    if s.server.Stopped? then ServerStep(Destroy)
    else if !front.phase.Closed? && s.server.Serving? then ClientStep(s.server.client, Close)
    else ServerStep(SessionNext(front, session))
  }

  lemma {:induction false} CloseIsNearer(cfg: Config, s: State, i: nat)
    requires Inv(cfg, s) && Endable(s, i) && Held(s, i) && s.server.Serving? && !Ahead(s).0.phase.Closed?
    ensures var step := Release(s);
            && Enabled(cfg, s, step) && Releases(i, step)
            && Endable(Apply(cfg, s, step), i) && Nearer(Apply(cfg, s, step), s, i)
  {
    ServingConn(cfg, s);
  }

  /** A session whose client has closed reads what is left and ends after its next call of the handler. */
  lemma {:induction false} SessionIsNearer(cfg: Config, s: State, i: nat)
    requires Inv(cfg, s) && Endable(s, i) && Held(s, i) && s.server.Serving? && Ahead(s).0.phase.Closed?
    ensures var step := Release(s);
            && Enabled(cfg, s, step) && Advances(i, step)
            && Endable(Apply(cfg, s, step), i) && Nearer(Apply(cfg, s, step), s, i)
  {
    SessionNextEnabled(cfg, s);
    ServingConn(cfg, s);
    if ReadyToHandle(s.server.session) {
      HandleBehind(cfg, s, i);
    } else if !s.server.session.Writing? && Ahead(s).0.toServer != [] {
      TakeBehind(cfg, s, i);
    }
  }

  lemma {:induction false} TakeBehind(cfg: Config, s: State, i: nat)
    requires s.server.Serving? && s.server.client < |s.conns| && i < |s.conns| && i != s.server.client
    requires var a := SessionNext(s.conns[s.server.client], s.server.session);
             (a.TakeHeader? || a.TakeBody?) && ServerEnabled(cfg, s, a)
    ensures var j, t := s.server.client, ServerApply(cfg, s, SessionNext(s.conns[s.server.client], s.server.session));
            && |t.conns| == |s.conns| && t.conns[i] == s.conns[i] && t.conns[j].phase == s.conns[j].phase
            && t.server.Serving? && t.server.client == j && !t.server.session.Writing? && t.destroyed == s.destroyed
            && |t.conns[j].toServer| < |s.conns[j].toServer|
  {
  }

  lemma {:induction false} HandleBehind(cfg: Config, s: State, i: nat)
    requires ServerEnabled(cfg, s, Handle) && i < |s.conns| && i != s.server.client
    ensures var t := ServerApply(cfg, s, Handle);
            && |t.conns| == |s.conns| && t.conns[i] == s.conns[i] && t.destroyed == s.destroyed
            && t.conns[s.server.client].phase == s.conns[s.server.client].phase
            && (t.server.Serving? ==> t.server.client == s.server.client && t.server.session.Writing?)
  {
  }

  lemma {:induction false} RunningIsNearer(cfg: Config, s: State, i: nat) returns (step: Step)
    requires cfg.capacity >= 1 && Inv(cfg, s) && Endable(s, i) && s.conns[i].link.Accepted?
    ensures Advances(i, step) && Enabled(cfg, s, step) && i < |Apply(cfg, s, step).conns|
    ensures var t := Apply(cfg, s, step);
            !InCall(t.conns[i].phase) || (Endable(t, i) && Nearer(t, s, i) && !Held(t, i))
  {
    BlockedOnlyInQueue(cfg, s, i);
    step :| Advances(i, step) && Enabled(cfg, s, step);
    AdvanceIsCloser(cfg, s, i, step);
  }

  lemma {:induction false} HeldIsNearer(cfg: Config, s: State, i: nat)
    requires Inv(cfg, s) && Endable(s, i) && Held(s, i)
    ensures var step := Release(s);
            && Enabled(cfg, s, step) && (Advances(i, step) || Releases(i, step))
            && Endable(Apply(cfg, s, step), i) && Nearer(Apply(cfg, s, step), s, i)
  {
    if s.server.Serving? {
      if Ahead(s).0.phase.Closed? {
        SessionIsNearer(cfg, s, i);
      } else {
        CloseIsNearer(cfg, s, i);
      }
    }
  }

  /** From `s`, the steps lead to `t` one by one. */
  ghost predicate Path(cfg: Config, s: State, steps: seq<Step>, t: State)
    decreases |steps|
  {
    if steps == [] then s == t
    else Enabled(cfg, s, steps[0]) && Path(cfg, Apply(cfg, s, steps[0]), steps[1..], t)
  }

  lemma {:induction false} PathTwice(cfg: Config, s: State, a: seq<Step>, t: State, b: seq<Step>, u: State)
    requires Path(cfg, s, a, t) && Path(cfg, t, b, u)
    ensures Path(cfg, s, a + b, u)
    decreases |a|
  {
    if a == [] {
      assert a + b == b;
    } else {
      assert (a + b)[1..] == a[1..] + b;
      PathTwice(cfg, Apply(cfg, s, a[0]), a[1..], t, b, u);
    }
  }

  lemma {:induction false} PathStep(cfg: Config, s: State, step: Step)
    requires Enabled(cfg, s, step)
    ensures Path(cfg, s, [step], Apply(cfg, s, step))
  {
    assert [step][1..] == [];
    assert Path(cfg, Apply(cfg, s, step), [step][1..], Apply(cfg, s, step));
  }

  lemma {:induction false} NearerStep(cfg: Config, s: State, i: nat) returns (step: Step)
    requires cfg.capacity >= 1 && Inv(cfg, s) && Endable(s, i)
    ensures Enabled(cfg, s, step) && i < |Apply(cfg, s, step).conns|
    ensures Advances(i, step) || (Held(s, i) && Releases(i, step))
    ensures var t := Apply(cfg, s, step);
            !InCall(t.conns[i].phase) || (Endable(t, i) && Nearer(t, s, i) && (Held(t, i) ==> Held(s, i)))
  {
    if Gone(s, i) {
      GoneCallEnds(cfg, s, i);
      step := ClientStep(i, GoneNext(s.conns[i].phase));
    } else if s.conns[i].link.Accepted? {
      step := RunningIsNearer(cfg, s, i);
    } else if s.server.Listening? {
      AcceptIsNearer(cfg, s, i);
      step := ServerStep(Accept(i));
    } else {
      HeldIsNearer(cfg, s, i);
      step := Release(s);
    }
  }

  lemma {:induction false} NearerState(cfg: Config, s: State, i: nat) returns (step: Step, t: State)
    requires cfg.capacity >= 1 && Inv(cfg, s) && Endable(s, i)
    ensures Path(cfg, s, [step], t) && Inv(cfg, t) && i < |t.conns|
    ensures Advances(i, step) || (Held(s, i) && Releases(i, step))
    ensures !InCall(t.conns[i].phase) || (Endable(t, i) && Nearer(t, s, i) && (Held(t, i) ==> Held(s, i)))
  {
    step := NearerStep(cfg, s, i);
    PathStep(cfg, s, step);
    StepKeeps(cfg, s, step);
    t := Apply(cfg, s, step);
  }

  /** Every call before the client's first error can be brought to its end. Advancing steps alone are
      enough unless the call is held in the queue, and then only the client in front has to close and, if
      the server stops, its owner to destroy it. */
  lemma {:induction false} CallEnds(cfg: Config, s: State, i: nat) returns (steps: seq<Step>, t: State)
    requires cfg.capacity >= 1 && Inv(cfg, s) && Endable(s, i)
    ensures Path(cfg, s, steps, t) && Inv(cfg, t)
    ensures forall k | 0 <= k < |steps| :: Advances(i, steps[k]) || (Held(s, i) && Releases(i, steps[k]))
    ensures i < |t.conns| && !InCall(t.conns[i].phase)
    decreases Stage(s, i), Stage(s, i) == 1 && !Handled(s.conns[i]), Left(s, i)
  {
    var step;
    step, t := NearerState(cfg, s, i);
    steps := [step];
    if InCall(t.conns[i].phase) {
      var u := t;
      var later;
      later, t := CallEnds(cfg, u, i);
      PathTwice(cfg, s, [step], u, later, t);
      steps := [step] + later;
    }
  }
}
