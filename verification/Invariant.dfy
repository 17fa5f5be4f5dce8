/** What every step keeps, on each connection and across them. */
module Invariant {
  import opened Wrappers
  import opened Framing
  import opened Handling
  import opened Protocol

  function Unsent(p: ClientPhase): Bytes {
    if p.Sending? then p.left else []
  }

  function HeaderSeen(p: ClientPhase): Bytes {
    if p.AwaitBody? then Header(p.expected) else []
  }

  /** Conservation: in each direction, bytes sent are bytes consumed plus bytes in flight. */
  ghost predicate ChannelInv(capacity: nat, c: Conn) {
    && c.sent == c.taken + c.toServer
    && c.written == c.received + c.toClient
    && |c.toServer| <= capacity && |c.toClient| <= capacity
  }

  /** The client has written the frames of its requests up to where it stands, and until its first
      error it has read the frames of its replies up to where it stands. */
  ghost predicate ClientInv(c: Conn, gone: bool) {
    && c.sent <= Frames(c.issued)
    && (c.phase.Closed? || (c.failed && gone) || c.sent + Unsent(c.phase) == Frames(c.issued))
    && (c.phase.Sending? ==> c.phase.left != [])
    && Frames(c.replies) <= c.received
    && |c.replies| <= |c.issued|
    && (!c.failed ==> |c.issued| <= |c.replies| + 1)
    && (!c.failed && !c.phase.Closed? ==>
          && c.received == Frames(c.replies) + HeaderSeen(c.phase)
          && |c.issued| == |c.replies| + if InCall(c.phase) then 1 else 0)
  }

  /** The server has read the frames of the requests it handled and part of one more, and has
      written the frames of the handler's responses up to where it stands. */
  ghost predicate SessionInv(c: Conn, session: Option<Session>) {
    match c.link
    case NotAccepted => session.None? && c.taken == [] && c.written == [] && c.entries == []
    case Accepted => session.Some? && AllReplied(c.entries) && SessionAt(c, session.value)
    case Ended(end) =>
      && session.None?
      && SplitFrames(c.taken).frames == Requests(c.entries)
      && (StreamEnded(c, end) || LastCallThrew(c, end) || WriteFailed(c, end))
  }

  /** Reading failed with every complete request answered in full. */
  ghost predicate StreamEnded(c: Conn, end: SessionEnd) {
    && AllReplied(c.entries) && c.written == Frames(Responses(c.entries))
    && (end == Completed || end == Failed(GeneralServerSessionError))
  }

  /** The last call threw, with every earlier one answered in full. */
  ghost predicate LastCallThrew(c: Conn, end: SessionEnd) {
    && c.entries != [] && AllReplied(Front(c.entries)) && c.written == Frames(Responses(c.entries))
    && var last := c.entries[|c.entries| - 1].outcome;
       last.Throws? && end == EndOf(last.fault)
  }

  /** Writing failed somewhere in the last response. */
  ghost predicate WriteFailed(c: Conn, end: SessionEnd) {
    && c.entries != [] && AllReplied(c.entries)
    && Frames(Responses(Front(c.entries))) <= c.written < Frames(Responses(c.entries))
    && end == Failed(UnableToSendMessage)
  }

  function Front(log: seq<Entry>): seq<Entry>
    requires log != []
  {
    log[..|log| - 1]
  }

  ghost predicate SessionAt(c: Conn, session: Session) {
    match session
    case ReadingHeader(got) =>
      && |got| < HEADER_SIZE
      && c.taken == Frames(Requests(c.entries)) + got && c.written == Frames(Responses(c.entries))
    case ReadingBody(need, body) =>
      && |body| <= need
      && c.taken == Frames(Requests(c.entries)) + (Header(need) + body) && c.written == Frames(Responses(c.entries))
    case Writing(left) =>
      && left != [] && c.entries != [] && Frames(Responses(Front(c.entries))) <= c.written
      && c.taken == Frames(Requests(c.entries)) && c.written + left == Frames(Responses(c.entries))
  }

  ghost predicate ConnInv(capacity: nat, c: Conn, session: Option<Session>, gone: bool) {
    && ChannelInv(capacity, c) && ClientInv(c, gone) && SessionInv(c, session)
    && (c.phase.Offline? ==> c.link.NotAccepted?)
  }

  /** The calls of the accepted sessions laid end to end, in accept order. */
  function Concatenated(order: seq<nat>, conns: seq<Conn>): seq<Entry>
    requires forall k | 0 <= k < |order| :: order[k] < |conns|
  {
    if order == [] then []
    else Concatenated(order[..|order| - 1], conns) + conns[order[|order| - 1]].entries
  }

  ghost predicate OrderInv(s: State) {
    && (forall k | 0 <= k < |s.order| :: s.order[k] < |s.conns|)
    && (forall j, k | 0 <= j < k < |s.order| :: s.order[j] != s.order[k])
    && (forall i | 0 <= i < |s.conns| :: i in s.order <==> !s.conns[i].link.NotAccepted?)
    && (forall i | 0 <= i < |s.conns| :: s.conns[i].link.Accepted? <==> s.server.Serving? && s.server.client == i)
    && (s.server.Serving? ==> s.order != [] && s.order[|s.order| - 1] == s.server.client)
  }

  /** Only the session that stopped the server may have ended otherwise than normally. */
  ghost predicate EndsInv(s: State)
    requires forall k | 0 <= k < |s.order| :: s.order[k] < |s.conns|
  {
    && (forall i | 0 <= i < |s.conns| && AbnormalEnd(s.conns[i]) ::
          s.order != [] && i == s.order[|s.order| - 1] && s.server == AfterSession(s.conns[i].link.end))
    && (s.server.Stopped? ==>
          || s.server == Stopped(ReturnedError(GeneralServerError))
          || (s.order != [] && AbnormalEnd(s.conns[s.order[|s.order| - 1]])))
  }

  predicate AbnormalEnd(c: Conn) {
    c.link.Ended? && c.link.end != Completed
  }

  ghost predicate LogInv(cfg: Config, s: State)
    requires forall k | 0 <= k < |s.order| :: s.order[k] < |s.conns|
  {
    && s.log == Concatenated(s.order, s.conns)
    && s.log == Serve(cfg.handler, cfg.app, Requests(s.log))
    && s.app == AppAfter(cfg.handler, cfg.app, Requests(s.log))
  }

  ghost predicate ConnAt(cfg: Config, s: State, i: nat)
    requires i < |s.conns|
  {
    ConnInv(cfg.capacity, s.conns[i], SessionOf(s, i), Gone(s, i))
  }

  ghost predicate ConnsInv(cfg: Config, s: State) {
    forall i | 0 <= i < |s.conns| :: ConnAt(cfg, s, i)
  }

  ghost predicate Inv(cfg: Config, s: State) {
    && |s.conns| == cfg.clients
    && ConnsInv(cfg, s)
    && OrderInv(s)
    && EndsInv(s)
    && LogInv(cfg, s)
    && (s.unlinked <==> s.server.Stopped? && s.server.outcome.ReturnedError?)
    && (s.server.Stopped? ==> !s.server.outcome.ReturnedSuccess?)
    && (s.destroyed ==> s.server.Stopped?)
  }

  // One connection, one client step

  lemma {:induction false} ClientStepChannel(capacity: nat, c: Conn, gone: bool, a: ClientAction)
    requires ChannelInv(capacity, c) && ClientEnabled(capacity, c, gone, a)
    ensures ChannelInv(capacity, ClientApply(c, a))
  {
    if a.Write? {
      Assoc(c.taken, c.toServer, c.phase.left[..a.k]);
    } else if a.ReadHeader? || a.ReadBody? {
      assert c.toClient == c.toClient[..a.k] + c.toClient[a.k..];
      Assoc(c.received, c.toClient[..a.k], c.toClient[a.k..]);
    }
  }

  lemma {:induction false} ClientWriteKeeps(c: Conn, k: nat)
    requires ClientInv(c, false) && ClientReady(c, Write(k))
    ensures ClientInv(ClientApply(c, Write(k)), false)
  {
    var left := c.phase.left;
    assert left == left[..k] + left[k..];
    Assoc(c.sent, left[..k], left[k..]);
  }

  lemma {:induction false} ClientReadHeaderKeeps(c: Conn, gone: bool, k: nat)
    requires ClientInv(c, gone) && ClientReady(c, ReadHeader(k))
    ensures ClientInv(ClientApply(c, ReadHeader(k)), gone)
  {
    if k == HEADER_SIZE {
      HeaderBijection(0, c.toClient[..k]);
    }
  }

  lemma {:induction false} ClientReadBodyKeeps(c: Conn, gone: bool, k: nat)
    requires ClientInv(c, gone) && ClientReady(c, ReadBody(k))
    ensures ClientInv(ClientApply(c, ReadBody(k)), gone)
  {
    if k == c.phase.expected && !c.failed {
      var m: ProtocolMessage := c.toClient[..k];
      FramesSnoc(c.replies, m);
      Assoc(Frames(c.replies), Header(c.phase.expected), m);
    }
  }

  lemma {:induction false} ClientStartKeeps(c: Conn, gone: bool, request: ProtocolMessage)
    requires ClientInv(c, gone) && c.phase.Idle?
    ensures ClientInv(ClientApply(c, Start(request)), gone)
  {
    FramesSnoc(c.issued, request);
    assert c.sent + [] == c.sent;
  }

  lemma {:induction false} ClientStepClient(capacity: nat, c: Conn, gone: bool, a: ClientAction)
    requires ClientInv(c, gone) && ClientEnabled(capacity, c, gone, a)
    ensures ClientInv(ClientApply(c, a), gone)
  {
    match a
    case Write(k) => ClientWriteKeeps(c, k);
    case ReadHeader(k) => ClientReadHeaderKeeps(c, gone, k);
    case ReadBody(k) => ClientReadBodyKeeps(c, gone, k);
    case Start(request) => ClientStartKeeps(c, gone, request);
    case _ =>
  }

  /** What the session invariant says depends on the server's end of the connection only. */
  lemma {:induction false} SessionFrame(c: Conn, d: Conn, session: Option<Session>)
    requires SessionInv(c, session)
    requires d.link == c.link && d.entries == c.entries && d.taken == c.taken && d.written == c.written
    ensures SessionInv(d, session)
  {
  }

  /** Likewise the client's invariant and the client's end. */
  lemma {:induction false} ClientFrame(c: Conn, d: Conn, gone: bool)
    requires ClientInv(c, gone)
    requires d.phase == c.phase && d.failed == c.failed && d.issued == c.issued && d.replies == c.replies
    requires d.sent == c.sent && d.received == c.received
    ensures ClientInv(d, true) && ClientInv(d, gone)
  {
  }

  lemma {:induction false} ClientStepFrame(c: Conn, a: ClientAction)
    requires ClientReady(c, a)
    ensures var d := ClientApply(c, a);
            d.link == c.link && d.entries == c.entries && d.taken == c.taken && d.written == c.written
  {
  }

  lemma {:induction false} ClientStepKeeps(capacity: nat, c: Conn, session: Option<Session>, gone: bool, a: ClientAction)
    requires ConnInv(capacity, c, session, gone) && ClientEnabled(capacity, c, gone, a)
    ensures ConnInv(capacity, ClientApply(c, a), session, gone)
  {
    ClientStepChannel(capacity, c, gone, a);
    ClientStepClient(capacity, c, gone, a);
    ClientStepFrame(c, a);
    SessionFrame(c, ClientApply(c, a), session);
  }

  // One connection, one step of its session

  lemma {:induction false} TakeKeeps(capacity: nat, c: Conn, session: Session, gone: bool, a: ServerAction)
    requires a.TakeHeader? || a.TakeBody?
    requires c.link.Accepted? && ConnInv(capacity, c, Some(session), gone)
    requires SessionEnabled(capacity, c, session, a)
    ensures var (d, next) := SessionApply(c, session, a); ConnInv(capacity, d, Some(next), gone)
  {
    var chunk, front := c.toServer[..a.k], Frames(Requests(c.entries));
    assert c.toServer == chunk + c.toServer[a.k..];
    Assoc(c.taken, chunk, c.toServer[a.k..]);
    if a.TakeHeader? {
      Assoc(front, session.got, chunk);
      HeaderBijection(0, if |session.got + chunk| == HEADER_SIZE then session.got + chunk else Header(0));
    } else {
      Assoc(front, Header(session.need) + session.body, chunk);
      Assoc(Header(session.need), session.body, chunk);
    }
  }

  lemma {:induction false} RespondKeeps(capacity: nat, c: Conn, session: Session, gone: bool, k: nat)
    requires c.link.Accepted? && ConnInv(capacity, c, Some(session), gone)
    requires SessionEnabled(capacity, c, session, Respond(k))
    ensures var (d, next) := SessionApply(c, session, Respond(k)); ConnInv(capacity, d, Some(next), gone)
  {
    var left := session.left;
    assert left == left[..k] + left[k..];
    Assoc(c.received, c.toClient, left[..k]);
    Assoc(c.written, left[..k], left[k..]);
  }

  /** A partial frame holds no message. */
  lemma {:induction false} PartialFrame(need: uint32, body: Bytes)
    requires |body| < need
    ensures NextFrame(Header(need) + body).None?
  {
    assert (Header(need) + body)[..HEADER_SIZE] == Header(need);
    HeaderBijection(need, Header(need));
  }

  /** How a failing read or write ends a session. */
  predicate EndFits(session: Session, end: SessionEnd) {
    if session.Writing? then end == Failed(UnableToSendMessage)
    else !ReadyToHandle(session) && (end == Completed || end == Failed(GeneralServerSessionError))
  }

  /** A session that ends while reading or writing has handled exactly the complete frames it took. */
  lemma {:induction false} EndKeeps(capacity: nat, c: Conn, session: Session, gone: bool, end: SessionEnd)
    requires c.link.Accepted? && ConnInv(capacity, c, Some(session), gone)
    requires EndFits(session, end)
    ensures ConnInv(capacity, c.(link := Ended(end)), None, true)
  {
    var d, requests := c.(link := Ended(end)), Requests(c.entries);
    ClientFrame(c, d, gone);
    match session {
      case ReadingHeader(got) => SplitOfFrames(requests, got);
      case ReadingBody(need, body) =>
        PartialFrame(need, body);
        SplitOfFrames(requests, Header(need) + body);
      case Writing(left) =>
        SplitOfFrames(requests, []);
        assert c.taken + [] == c.taken;
        assert WriteFailed(d, end);
    }
  }

  lemma {:induction false} HandledFrames(c: Conn, need: uint32, body: ProtocolMessage, e: Entry)
    requires c.taken == Frames(Requests(c.entries)) + (Header(need) + body)
    requires |body| == need && e.request == body
    ensures c.taken == Frames(Requests(c.entries + [e]))
  {
    RequestsSnoc(c.entries, e);
    FramesSnoc(Requests(c.entries), body);
  }

  lemma {:induction false} ReplyKeeps(capacity: nat, c: Conn, session: Session, gone: bool, e: Entry)
    requires c.link.Accepted? && ConnInv(capacity, c, Some(session), gone)
    requires ReadyToHandle(session) && e.request == session.body && e.outcome.Reply?
    ensures ConnInv(capacity, c.(entries := c.entries + [e]), Some(Writing(Frame(e.outcome.response))), gone)
  {
    ClientFrame(c, c.(entries := c.entries + [e]), gone);
    HandledFrames(c, session.need, session.body, e);
    ResponsesSnoc(c.entries, e);
    FramesSnoc(Responses(c.entries), e.outcome.response);
    assert Front(c.entries + [e]) == c.entries;
  }

  lemma {:induction false} ThrowKeeps(capacity: nat, c: Conn, session: Session, gone: bool, e: Entry)
    requires c.link.Accepted? && ConnInv(capacity, c, Some(session), gone)
    requires ReadyToHandle(session) && e.request == session.body && e.outcome.Throws?
    ensures ConnInv(capacity, c.(entries := c.entries + [e], link := Ended(EndOf(e.outcome.fault))), None, true)
  {
    var d := c.(entries := c.entries + [e], link := Ended(EndOf(e.outcome.fault)));
    ClientFrame(c, d, gone);
    HandledFrames(c, session.need, session.body, e);
    ResponsesSnoc(c.entries, e);
    assert Responses(c.entries) + [] == Responses(c.entries);
    SplitOfFrames(Requests(d.entries), []);
    assert d.taken + [] == d.taken;
    assert Front(d.entries) == c.entries;
  }

  // The whole system

  lemma {:induction false} ConcatenatedFrame(order: seq<nat>, a: seq<Conn>, b: seq<Conn>)
    requires forall k | 0 <= k < |order| :: order[k] < |a| && order[k] < |b|
    requires forall k | 0 <= k < |order| :: a[order[k]].entries == b[order[k]].entries
    ensures Concatenated(order, a) == Concatenated(order, b)
  {
    if order != [] {
      ConcatenatedFrame(order[..|order| - 1], a, b);
    }
  }

  /** Changing connection `i` alone keeps the invariants of the other connections. */
  lemma {:induction false} ConnsUpdate(cfg: Config, s: State, t: State, i: nat)
    requires ConnsInv(cfg, s) && i < |s.conns| == |t.conns|
    requires t.conns == s.conns[i := t.conns[i]]
    requires ConnAt(cfg, t, i)
    requires forall j | 0 <= j < |s.conns| && j != i :: SessionOf(t, j) == SessionOf(s, j)
    requires s.destroyed ==> t.destroyed
    ensures ConnsInv(cfg, t)
  {
    forall j: nat | j < |t.conns| ensures ConnAt(cfg, t, j) {
      if j != i {
        assert ConnAt(cfg, s, j) && t.conns[j] == s.conns[j];
        ClientFrame(s.conns[j], t.conns[j], Gone(s, j));
      }
    }
  }

  lemma {:induction false} OrderFrame(s: State, t: State)
    requires OrderInv(s) && t.order == s.order && |t.conns| == |s.conns|
    requires forall j | 0 <= j < |s.conns| :: t.conns[j].link == s.conns[j].link
    requires s.server.Serving? <==> t.server.Serving?
    requires s.server.Serving? ==> s.server.client == t.server.client
    ensures OrderInv(t)
  {
  }

  lemma {:induction false} EndsFrame(s: State, t: State)
    requires OrderInv(s) && EndsInv(s) && t.order == s.order && |t.conns| == |s.conns|
    requires forall j | 0 <= j < |s.conns| :: t.conns[j].link == s.conns[j].link
    requires t.server == s.server || (s.server.Serving? && t.server.Serving?)
    ensures EndsInv(t)
  {
    forall j | 0 <= j < |t.conns| && AbnormalEnd(t.conns[j])
      ensures t.order != [] && j == t.order[|t.order| - 1] && t.server == AfterSession(t.conns[j].link.end)
    {
      assert AbnormalEnd(s.conns[j]);
    }
  }

  /** A step that leaves the handler's calls, the accept order and the links alone keeps the log. */
  lemma {:induction false} LogFrame(cfg: Config, s: State, t: State)
    requires OrderInv(s) && LogInv(cfg, s)
    requires t.order == s.order && t.log == s.log && t.app == s.app && |t.conns| == |s.conns|
    requires forall j | 0 <= j < |s.conns| :: t.conns[j].entries == s.conns[j].entries
    ensures LogInv(cfg, t)
  {
    ConcatenatedFrame(s.order, s.conns, t.conns);
  }

  /** A step that changes bytes and phases of connection `i` only keeps everything else. */
  lemma {:induction false} QuietKeeps(cfg: Config, s: State, t: State, i: nat)
    requires Inv(cfg, s) && i < |s.conns| == |t.conns|
    requires t.conns == s.conns[i := t.conns[i]]
    requires t.conns[i].link == s.conns[i].link && t.conns[i].entries == s.conns[i].entries
    requires t.order == s.order && t.log == s.log && t.app == s.app && t.unlinked == s.unlinked
    requires t.destroyed == s.destroyed
    requires t.server == s.server || (s.server.Serving? && t.server.Serving? && t.server.client == s.server.client == i)
    requires ConnAt(cfg, t, i)
    ensures Inv(cfg, t)
  {
    ConnsUpdate(cfg, s, t, i);
    OrderFrame(s, t);
    EndsFrame(s, t);
    LogFrame(cfg, s, t);
  }

  lemma {:induction false} ClientMoveKeeps(cfg: Config, s: State, i: nat, a: ClientAction)
    requires Inv(cfg, s) && Enabled(cfg, s, ClientStep(i, a))
    ensures Inv(cfg, Apply(cfg, s, ClientStep(i, a)))
  {
    var c, d := s.conns[i], ClientApply(s.conns[i], a);
    assert ConnAt(cfg, s, i);
    ClientStepKeeps(cfg.capacity, c, SessionOf(s, i), Gone(s, i), a);
    ClientStepFrame(c, a);
    QuietKeeps(cfg, s, s.(conns := s.conns[i := d]), i);
  }

  lemma {:induction false} SessionStepKeeps(capacity: nat, c: Conn, session: Session, gone: bool, a: ServerAction)
    requires c.link.Accepted? && ConnInv(capacity, c, Some(session), gone)
    requires SessionEnabled(capacity, c, session, a)
    ensures var (d, next) := SessionApply(c, session, a);
            ConnInv(capacity, d, Some(next), gone) && d.link == c.link && d.entries == c.entries
  {
    if a.Respond? {
      RespondKeeps(capacity, c, session, gone, a.k);
    } else {
      TakeKeeps(capacity, c, session, gone, a);
    }
  }

  lemma {:induction false} SessionMoveKeeps(cfg: Config, s: State, a: ServerAction)
    requires a.TakeHeader? || a.TakeBody? || a.Respond?
    requires Inv(cfg, s) && ServerEnabled(cfg, s, a)
    ensures Inv(cfg, ServerApply(cfg, s, a))
  {
    var i := s.server.client;
    assert ConnAt(cfg, s, i);
    SessionStepKeeps(cfg.capacity, s.conns[i], s.server.session, Gone(s, i), a);
    QuietKeeps(cfg, s, ServerApply(cfg, s, a), i);
  }

  lemma {:induction false} AcceptConn(capacity: nat, c: Conn, gone: bool)
    requires c.link.NotAccepted? && !c.phase.Offline? && ConnInv(capacity, c, None, gone)
    ensures ConnInv(capacity, c.(link := Accepted), Some(ReadingHeader([])), gone)
  {
    ClientFrame(c, c.(link := Accepted), gone);
    assert Frames([]) + [] == [];
    assert SessionAt(c.(link := Accepted), ReadingHeader([]));
  }

  lemma {:induction false} AcceptOrder(s: State, t: State, i: nat)
    requires OrderInv(s) && s.server.Listening? && i < |s.conns| == |t.conns| && s.conns[i].link.NotAccepted?
    requires t.conns == s.conns[i := s.conns[i].(link := Accepted)] && t.order == s.order + [i]
    requires t.server.Serving? && t.server.client == i
    ensures OrderInv(t)
  {
    forall j | 0 <= j < |t.conns| ensures j in t.order <==> !t.conns[j].link.NotAccepted? {
      assert j in t.order <==> j in s.order || j == i;
    }
  }

  /** While the server runs, all ended sessions ended normally, and they stay as they were. */
  lemma {:induction false} EndsUpdate(s: State, t: State, i: nat)
    requires OrderInv(s) && EndsInv(s) && !s.server.Stopped? && i < |s.conns| == |t.conns|
    requires t.conns == s.conns[i := t.conns[i]] && (forall k | 0 <= k < |t.order| :: t.order[k] < |t.conns|)
    requires t.order != [] && t.order[|t.order| - 1] == i
    requires t.conns[i].link.Ended? ==> t.server == AfterSession(t.conns[i].link.end)
    requires t.server.Stopped? ==> t.conns[i].link.Ended?
    ensures EndsInv(t)
  {
    assert forall j | 0 <= j < |s.conns| :: !AbnormalEnd(s.conns[j]);
    assert forall j | 0 <= j < |t.conns| && j != i :: t.conns[j] == s.conns[j];
  }

  lemma {:induction false} AcceptLog(cfg: Config, s: State, t: State, i: nat)
    requires OrderInv(s) && LogInv(cfg, s) && i < |s.conns| == |t.conns| && s.conns[i].entries == []
    requires forall j | 0 <= j < |s.conns| :: t.conns[j].entries == s.conns[j].entries
    requires t.order == s.order + [i] && t.log == s.log && t.app == s.app
    ensures LogInv(cfg, t)
  {
    assert t.order[..|s.order|] == s.order;
    ConcatenatedFrame(s.order, s.conns, t.conns);
    assert Concatenated(t.order, t.conns) == s.log + [];
  }

  lemma {:induction false} AcceptKeeps(cfg: Config, s: State, i: nat)
    requires Inv(cfg, s) && ServerEnabled(cfg, s, Accept(i))
    ensures Inv(cfg, ServerApply(cfg, s, Accept(i)))
  {
    var t := ServerApply(cfg, s, Accept(i));
    assert ConnAt(cfg, s, i);
    AcceptConn(cfg.capacity, s.conns[i], Gone(s, i));
    ConnsUpdate(cfg, s, t, i);
    AcceptOrder(s, t, i);
    EndsUpdate(s, t, i);
    AcceptLog(cfg, s, t, i);
  }

  lemma {:induction false} AcceptFailsKeeps(cfg: Config, s: State)
    requires Inv(cfg, s) && s.server.Listening?
    ensures Inv(cfg, ServerApply(cfg, s, AcceptFails))
  {
    var t := ServerApply(cfg, s, AcceptFails);
    forall j: nat | j < |t.conns| ensures ConnAt(cfg, t, j) {
      assert ConnAt(cfg, s, j);
      ClientFrame(s.conns[j], t.conns[j], Gone(s, j));
    }
    OrderFrame(s, t);
    AcceptFailsEnds(s, t);
    LogFrame(cfg, s, t);
  }

  lemma {:induction false} AcceptFailsEnds(s: State, t: State)
    requires OrderInv(s) && EndsInv(s) && s.server.Listening? && t.conns == s.conns && t.order == s.order
    requires t.server == Stopped(ReturnedError(GeneralServerError))
    ensures EndsInv(t)
  {
    forall j | 0 <= j < |t.conns| ensures !AbnormalEnd(t.conns[j]) {
      assert !AbnormalEnd(s.conns[j]);
    }
  }

  lemma {:induction false} DestroyKeeps(cfg: Config, s: State)
    requires Inv(cfg, s) && ServerEnabled(cfg, s, Destroy)
    ensures Inv(cfg, ServerApply(cfg, s, Destroy))
  {
    var t := ServerApply(cfg, s, Destroy);
    forall j: nat | j < |t.conns| ensures ConnAt(cfg, t, j) {
      assert ConnAt(cfg, s, j);
      ClientFrame(s.conns[j], t.conns[j], Gone(s, j));
    }
    OrderFrame(s, t);
    EndsFrame(s, t);
    LogFrame(cfg, s, t);
  }

  lemma {:induction false} EndOrder(s: State, t: State)
    requires OrderInv(s) && s.server.Serving? && s.server.client < |s.conns| == |t.conns|
    requires t.conns == s.conns[s.server.client := t.conns[s.server.client]] && t.order == s.order
    requires t.conns[s.server.client].link.Ended? && !t.server.Serving?
    ensures OrderInv(t)
  {
  }

  lemma {:induction false} ServingConn(cfg: Config, s: State)
    requires Inv(cfg, s) && s.server.Serving?
    ensures s.server.client < |s.conns| && s.conns[s.server.client].link.Accepted?
    ensures ConnInv(cfg.capacity, s.conns[s.server.client], Some(s.server.session), false)
  {
    assert s.server.client < |s.conns|;
    assert ConnAt(cfg, s, s.server.client);
  }

  /** A session has ended: its connection is as given, everything else but the log is as it was. */
  lemma {:induction false} EndedKeeps(cfg: Config, s: State, t: State)
    requires ConnsInv(cfg, s) && OrderInv(s) && EndsInv(s) && s.server.Serving? && |t.conns| == |s.conns| == cfg.clients
    requires s.server.client < |s.conns|
    requires t.conns == s.conns[s.server.client := t.conns[s.server.client]] && t.order == s.order
    requires t.conns[s.server.client].link.Ended?
    requires ConnInv(cfg.capacity, t.conns[s.server.client], None, true)
    requires t.server == AfterSession(t.conns[s.server.client].link.end)
    requires t.unlinked <==> t.server.Stopped? && t.server.outcome.ReturnedError?
    requires !s.destroyed && !t.destroyed
    requires (forall k | 0 <= k < |t.order| :: t.order[k] < |t.conns|) && LogInv(cfg, t)
    ensures Inv(cfg, t)
  {
    assert ConnAt(cfg, t, s.server.client);
    ConnsUpdate(cfg, s, t, s.server.client);
    EndOrder(s, t);
    EndsUpdate(s, t, s.server.client);
  }

  lemma {:induction false} EndSessionKeeps(cfg: Config, s: State, end: SessionEnd)
    requires Inv(cfg, s) && s.server.Serving? && EndFits(s.server.session, end)
    ensures s.server.client < |s.conns| && Inv(cfg, EndSession(s, end))
  {
    ServingConn(cfg, s);
    var i, t := s.server.client, EndSession(s, end);
    EndKeeps(cfg.capacity, s.conns[i], s.server.session, false, end);
    LogFrame(cfg, s, t);
    EndedKeeps(cfg, s, t);
  }

  /** A handler call extends the log and the calls of the last accepted session alike. */
  lemma {:induction false} HandleLog(cfg: Config, s: State, t: State, e: Entry)
    requires OrderInv(s) && LogInv(cfg, s) && s.server.Serving?
    requires t.order == s.order && |t.conns| == |s.conns| && t.log == s.log + [e]
    requires e.outcome == cfg.handler(s.app, e.request) && t.app == e.outcome.app
    requires t.conns[s.server.client].entries == s.conns[s.server.client].entries + [e]
    requires forall j | 0 <= j < |s.conns| && j != s.server.client :: t.conns[j].entries == s.conns[j].entries
    ensures LogInv(cfg, t)
  {
    var n := |s.order| - 1;
    ConcatenatedFrame(s.order[..n], s.conns, t.conns);
    Assoc(Concatenated(s.order[..n], s.conns), s.conns[s.server.client].entries, [e]);
    RequestsSnoc(s.log, e);
    ServeSnoc(cfg.handler, cfg.app, Requests(s.log), e.request);
  }

  lemma {:induction false} AnsweredKeeps(cfg: Config, s: State, t: State)
    requires ConnsInv(cfg, s) && s.server.Serving? && s.server.client < |s.conns| == |t.conns|
    requires t.conns == s.conns[s.server.client := t.conns[s.server.client]]
    requires t.server.Serving? && t.server.client == s.server.client && !t.conns[s.server.client].link.Ended?
    requires !s.destroyed && !t.destroyed
    requires ConnInv(cfg.capacity, t.conns[s.server.client], Some(t.server.session), false)
    ensures ConnsInv(cfg, t)
  {
    assert ConnAt(cfg, t, s.server.client);
    ConnsUpdate(cfg, s, t, s.server.client);
  }

  lemma {:induction false} HandleReplyKeeps(cfg: Config, s: State, t: State, e: Entry)
    requires Inv(cfg, s) && ServerEnabled(cfg, s, Handle) && e.request == s.server.session.body
    requires e.outcome == cfg.handler(s.app, e.request) && e.outcome.Reply?
    requires var c := s.conns[s.server.client];
             t.conns == s.conns[s.server.client := c.(entries := c.entries + [e])]
    requires t.app == e.outcome.app && t.log == s.log + [e] && t.order == s.order && t.unlinked == s.unlinked
    requires t.destroyed == s.destroyed
    requires t.server == Serving(s.server.client, Writing(Frame(e.outcome.response)))
    ensures Inv(cfg, t)
  {
    ServingConn(cfg, s);
    ReplyKeeps(cfg.capacity, s.conns[s.server.client], s.server.session, false, e);
    AnsweredKeeps(cfg, s, t);
    OrderFrame(s, t);
    EndsFrame(s, t);
    HandleLog(cfg, s, t, e);
  }

  lemma {:induction false} HandleThrowKeeps(cfg: Config, s: State, t: State, e: Entry)
    requires Inv(cfg, s) && ServerEnabled(cfg, s, Handle) && e.request == s.server.session.body
    requires e.outcome == cfg.handler(s.app, e.request) && e.outcome.Throws?
    requires var c := s.conns[s.server.client];
             t.conns == s.conns[s.server.client := c.(entries := c.entries + [e], link := Ended(EndOf(e.outcome.fault)))]
    requires t.app == e.outcome.app && t.log == s.log + [e] && t.order == s.order
    requires t.server == AfterSession(EndOf(e.outcome.fault))
    requires t.unlinked <==> t.server.Stopped? && t.server.outcome.ReturnedError?
    requires t.destroyed == s.destroyed
    ensures Inv(cfg, t)
  {
    ServingConn(cfg, s);
    ThrowKeeps(cfg.capacity, s.conns[s.server.client], s.server.session, false, e);
    HandleLog(cfg, s, t, e);
    EndedKeeps(cfg, s, t);
  }

  lemma {:induction false} HandleKeeps(cfg: Config, s: State)
    requires Inv(cfg, s) && ServerEnabled(cfg, s, Handle)
    ensures Inv(cfg, HandleRequest(cfg, s))
  {
    var e := Entry(s.server.session.body, cfg.handler(s.app, s.server.session.body));
    if e.outcome.Reply? {
      HandleReplyKeeps(cfg, s, HandleRequest(cfg, s), e);
    } else {
      HandleThrowKeeps(cfg, s, HandleRequest(cfg, s), e);
    }
  }

  lemma {:induction false} ServerMoveKeeps(cfg: Config, s: State, a: ServerAction)
    requires Inv(cfg, s) && ServerEnabled(cfg, s, a)
    ensures Inv(cfg, ServerApply(cfg, s, a))
  {
    match a
    case Accept(i) => AcceptKeeps(cfg, s, i);
    case AcceptFails => AcceptFailsKeeps(cfg, s);
    case Destroy => DestroyKeeps(cfg, s);
    case TakeFails(fault) => EndSessionKeeps(cfg, s, EndOf(fault));
    case RespondFails => EndSessionKeeps(cfg, s, Failed(UnableToSendMessage));
    case Handle => HandleKeeps(cfg, s);
    case _ => SessionMoveKeeps(cfg, s, a);
  }

  /** Every step of every process keeps the invariant. */
  lemma {:induction false} StepKeeps(cfg: Config, s: State, step: Step)
    requires Inv(cfg, s) && Enabled(cfg, s, step)
    ensures Inv(cfg, Apply(cfg, s, step))
  {
    match step
    case ClientStep(i, a) => ClientMoveKeeps(cfg, s, i, a);
    case ServerStep(a) => ServerMoveKeeps(cfg, s, a);
  }

  lemma {:induction false} InitInv(cfg: Config)
    ensures Inv(cfg, Init(cfg))
  {
    assert Frames([]) == [];
    assert ConnInv(cfg.capacity, NEW_CONN, None, false);
    forall i: nat | i < cfg.clients ensures ConnAt(cfg, Init(cfg), i) {
    }
  }

  /** The invariant holds in every state of every run. */
  lemma {:induction false} RunKeeps(cfg: Config, steps: seq<Step>, states: seq<State>, k: nat)
    requires Run(cfg, steps, states) && k < |states|
    ensures Inv(cfg, states[k])
  {
    if k == 0 {
      InitInv(cfg);
    } else {
      RunKeeps(cfg, steps, states, k - 1);
      StepKeeps(cfg, states[k - 1], steps[k - 1]);
    }
  }

  lemma {:induction false} ReachableInv(cfg: Config, s: State)
    requires Reachable(cfg, s)
    ensures Inv(cfg, s)
  {
    var steps, states :| Run(cfg, steps, states) && states[|steps|] == s;
    RunKeeps(cfg, steps, states, |steps|);
  }
}
