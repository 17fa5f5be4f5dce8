/** The client processes, the server process and the byte channels between them as one transition
    system. Each read or write moves an arbitrary non-empty chunk; each channel holds a bounded
    number of bytes; any process may be scheduled next. */
module Protocol {
  import opened Wrappers
  import opened Framing
  import opened Handling

  datatype Config = Config(clients: nat, capacity: nat, handler: RequestHandler, app: App)

  /** Where a client stands inside `sendAndReceiveMessage`. */
  datatype ClientPhase =
    | Offline
    | Idle
    | Sending(left: Bytes)
    | AwaitHeader
    | AwaitBody(expected: uint32)
    | Closed

  datatype Link = NotAccepted | Accepted | Ended(end: SessionEnd)

  /** One client, its two channels, and the history of both ends.
      `replies` lists the results of successful receives up to the client's first error, `late` those after it. */
  datatype Conn = Conn(
    phase: ClientPhase, failed: bool, link: Link,
    issued: seq<ProtocolMessage>, replies: seq<ProtocolMessage>, late: seq<ProtocolMessage>, entries: seq<Entry>,
    sent: Bytes, toServer: Bytes, taken: Bytes,
    written: Bytes, toClient: Bytes, received: Bytes)

  /** Where the server stands inside the session loop. */
  datatype Session =
    | ReadingHeader(got: Bytes)
    | ReadingBody(need: uint32, body: Bytes)
    | Writing(left: Bytes)

  datatype Server = Listening | Serving(client: nat, session: Session) | Stopped(outcome: RunOutcome)

  /** `order` lists the accepted clients; `log` is the handler's calls across all sessions. The acceptor
      outlives `run`: clients in the queue are cut off only when the owner destroys the server object. */
  datatype State = State(
    conns: seq<Conn>, server: Server, app: App, log: seq<Entry>, order: seq<nat>, unlinked: bool, destroyed: bool)

  datatype ClientAction =
    | Connect
    | Start(request: ProtocolMessage)
    | Write(k: nat)
    | WriteFails
    | ReadHeader(k: nat)
    | ReadBody(k: nat)
    | ReadFails
    | Close

  datatype ServerAction =
    | Accept(client: nat)
    | AcceptFails
    | TakeHeader(k: nat)
    | TakeBody(k: nat)
    | TakeFails(fault: SystemFault)
    | Handle
    | Respond(k: nat)
    | RespondFails
    | Destroy

  datatype Step = ClientStep(client: nat, action: ClientAction) | ServerStep(move: ServerAction)

  const NEW_CONN := Conn(Offline, false, NotAccepted, [], [], [], [], [], [], [], [], [], [])

  function Init(cfg: Config): State {
    State(seq(cfg.clients, _ => NEW_CONN), Listening, cfg.app, [], [], false, false)
  }

  predicate InCall(p: ClientPhase) {
    p.Sending? || p.AwaitHeader? || p.AwaitBody?
  }

  /** The peer of client `i` will neither read nor write any more. */
  predicate Gone(s: State, i: nat)
    requires i < |s.conns|
  {
    s.destroyed || s.conns[i].link.Ended?
  }

  function SessionOf(s: State, i: nat): Option<Session> {
    if s.server.Serving? && s.server.client == i then Some(s.server.session) else None
  }

  // The client's side of one connection

  /** The action fits where the client stands, and the bytes it moves are there. */
  predicate ClientReady(c: Conn, a: ClientAction) {
    match a
    case Connect => c.phase.Offline?
    case Start(_) => c.phase.Idle?
    case Write(k) => c.phase.Sending? && 1 <= k <= |c.phase.left|
    case WriteFails => c.phase.Sending?
    case ReadHeader(k) => c.phase.AwaitHeader? && 1 <= k <= HEADER_SIZE && k <= |c.toClient|
    case ReadBody(k) =>
      c.phase.AwaitBody? && if c.phase.expected == 0 then k == 0 else 1 <= k <= c.phase.expected && k <= |c.toClient|
    case ReadFails => c.phase.AwaitHeader? || (c.phase.AwaitBody? && c.phase.expected > 0)
    case Close => !c.phase.Offline? && !c.phase.Closed?
  }

  predicate ClientEnabled(capacity: nat, c: Conn, gone: bool, a: ClientAction) {
    && ClientReady(c, a)
    && (a.Connect? ==> !gone)
    && (a.Write? ==> !gone && |c.toServer| + a.k <= capacity)
    && (a.WriteFails? || a.ReadFails? ==> gone)
  }

  /** A receive that comes back short ends the call with an error; the bytes it took are gone. */
  function ClientApply(c: Conn, a: ClientAction): Conn
    requires ClientReady(c, a)
  {
    match a
    case Connect => c.(phase := Idle)
    case Start(request) => c.(phase := Sending(Frame(request)), issued := c.issued + [request])
    case Write(k) =>
      var left := c.phase.left;
      c.(phase := if k == |left| then AwaitHeader else Sending(left[k..]),
         sent := c.sent + left[..k], toServer := c.toServer + left[..k])
    case WriteFails => c.(phase := Idle, failed := true)
    case ReadHeader(k) =>
      var d := c.(received := c.received + c.toClient[..k], toClient := c.toClient[k..]);
      if k == HEADER_SIZE then d.(phase := AwaitBody(Length(c.toClient[..k]))) else d.(phase := Idle, failed := true)
    case ReadBody(k) =>
      var d := c.(phase := Idle, received := c.received + c.toClient[..k], toClient := c.toClient[k..]);
      if k != c.phase.expected then d.(failed := true)
      else if c.failed then d.(late := c.late + [c.toClient[..k]])
      else d.(replies := c.replies + [c.toClient[..k]])
    case ReadFails => c.(phase := Idle, failed := true)
    case Close => c.(phase := Closed)
  }

  // The server's side of one connection

  predicate SessionReady(c: Conn, session: Session, a: ServerAction) {
    match a
    case TakeHeader(k) => session.ReadingHeader? && 1 <= k <= |c.toServer| && |session.got| + k <= HEADER_SIZE
    case TakeBody(k) => session.ReadingBody? && 1 <= k <= |c.toServer| && |session.body| + k <= session.need
    case Respond(k) => session.Writing? && 1 <= k <= |session.left|
    case _ => false
  }

  predicate SessionEnabled(capacity: nat, c: Conn, session: Session, a: ServerAction) {
    && SessionReady(c, session, a)
    && (a.Respond? ==> !c.phase.Closed? && |c.toClient| + a.k <= capacity)
  }

  function SessionApply(c: Conn, session: Session, a: ServerAction): (Conn, Session)
    requires SessionReady(c, session, a)
  {
    match a
    case TakeHeader(k) =>
      var got := session.got + c.toServer[..k];
      (c.(taken := c.taken + c.toServer[..k], toServer := c.toServer[k..]),
       if |got| == HEADER_SIZE then ReadingBody(Length(got), []) else ReadingHeader(got))
    case TakeBody(k) =>
      (c.(taken := c.taken + c.toServer[..k], toServer := c.toServer[k..]),
       ReadingBody(session.need, session.body + c.toServer[..k]))
    case Respond(k) =>
      var left := session.left;
      (c.(written := c.written + left[..k], toClient := c.toClient + left[..k]),
       if k == |left| then ReadingHeader([]) else Writing(left[k..]))
  }

  /** A complete request is waiting for the handler. */
  predicate ReadyToHandle(session: Session) {
    session.ReadingBody? && |session.body| == session.need
  }

  // The whole system

  predicate ServerEnabled(cfg: Config, s: State, a: ServerAction) {
    match a
    case Accept(i) =>
      && s.server.Listening? && i < |s.conns|
      && !s.conns[i].phase.Offline? && s.conns[i].link.NotAccepted?
    case AcceptFails => s.server.Listening?
    case Destroy => s.server.Stopped? && !s.destroyed
    case _ =>
      && s.server.Serving? && s.server.client < |s.conns|
      && var c, session := s.conns[s.server.client], s.server.session;
         match a
         case Handle => ReadyToHandle(session)
         case TakeFails(fault) =>
           && (session.ReadingHeader? || (session.ReadingBody? && |session.body| < session.need))
           && c.phase.Closed? && (fault.EndOfFile? ==> c.toServer == [])
         case RespondFails => session.Writing? && c.phase.Closed?
         case _ => SessionEnabled(cfg.capacity, c, session, a)
  }

  predicate Enabled(cfg: Config, s: State, step: Step) {
    match step
    case ClientStep(i, a) =>
      i < |s.conns| && ClientEnabled(cfg.capacity, s.conns[i], Gone(s, i), a) && (a.Connect? ==> !s.unlinked)
    case ServerStep(a) => ServerEnabled(cfg, s, a)
  }

  /** How the server process goes on after a session: it listens again only if the session returned
      without an error. */
  function AfterSession(end: SessionEnd): Server {
    match end
    case Completed => Listening
    case Failed(error) => Stopped(ReturnedError(error))
    case Thrown => Stopped(Escaped)
  }

  function EndSession(s: State, end: SessionEnd): State
    requires s.server.Serving? && s.server.client < |s.conns|
  {
    var i, next := s.server.client, AfterSession(end);
    s.(conns := s.conns[i := s.conns[i].(link := Ended(end))], server := next,
       unlinked := next.Stopped? && next.outcome.ReturnedError?)
  }

  function HandleRequest(cfg: Config, s: State): State
    requires s.server.Serving? && s.server.client < |s.conns| && s.server.session.ReadingBody?
    requires ReadyToHandle(s.server.session)
  {
    var i, request := s.server.client, s.server.session.body;
    var outcome := cfg.handler(s.app, request);
    var c := s.conns[i].(entries := s.conns[i].entries + [Entry(request, outcome)]);
    var t := s.(conns := s.conns[i := c], app := outcome.app, log := s.log + [Entry(request, outcome)]);
    match outcome
    case Reply(_, response) => t.(server := Serving(i, Writing(Frame(response))))
    case Throws(_, fault) => EndSession(t, EndOf(fault))
  }

  function ServerApply(cfg: Config, s: State, a: ServerAction): State
    requires ServerEnabled(cfg, s, a)
  {
    match a
    case Accept(i) =>
      s.(conns := s.conns[i := s.conns[i].(link := Accepted)], server := Serving(i, ReadingHeader([])),
         order := s.order + [i])
    case Destroy => s.(destroyed := true)
    case AcceptFails => s.(server := Stopped(ReturnedError(GeneralServerError)), unlinked := true)
    case TakeFails(fault) => EndSession(s, EndOf(fault))
    case RespondFails => EndSession(s, Failed(UnableToSendMessage))
    case Handle => HandleRequest(cfg, s)
    case _ =>
      var i := s.server.client;
      var (c, session) := SessionApply(s.conns[i], s.server.session, a);
      s.(conns := s.conns[i := c], server := Serving(i, session))
  }

  function Apply(cfg: Config, s: State, step: Step): State
    requires Enabled(cfg, s, step)
  {
    match step
    case ClientStep(i, a) => s.(conns := s.conns[i := ClientApply(s.conns[i], a)])
    case ServerStep(a) => ServerApply(cfg, s, a)
  }

  /** A finite run: each state comes from the one before by the step beside it. */
  ghost predicate Run(cfg: Config, steps: seq<Step>, states: seq<State>) {
    && |states| == |steps| + 1
    && states[0] == Init(cfg)
    && forall k | 0 <= k < |steps| :: Enabled(cfg, states[k], steps[k]) && states[k + 1] == Apply(cfg, states[k], steps[k])
  }

  ghost predicate Reachable(cfg: Config, s: State) {
    exists steps, states :: Run(cfg, steps, states) && states[|steps|] == s
  }
}
