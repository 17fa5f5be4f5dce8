/** What can go wrong, with runs that show it: a call that waits in the queue for ever, behind another client
    or at a server that has stopped, and after a short read two processes that block each other or a reply
    that no handler gave. */
module Deadlock {
  import opened Framing
  import opened Handling
  import opened Protocol
  import opened Progress

  /** Every read and write moves as much as it can. */
  predicate Full(cfg: Config, s: State, step: Step)
    requires Enabled(cfg, s, step)
  {
    match step
    case ClientStep(i, a) => (
      var c := s.conns[i];
      match a
      case Write(k) => k == |c.phase.left| || |c.toServer| + k == cfg.capacity
      case ReadHeader(k) => k == HEADER_SIZE || k == |c.toClient|
      case ReadBody(k) => k == c.phase.expected || k == |c.toClient|
      case _ => true)
    case ServerStep(a) =>
      (a.TakeHeader? || a.TakeBody? || a.Respond?) ==>
        var c, session := s.conns[s.server.client], s.server.session;
        match a
        case TakeHeader(k) => |session.got| + k == HEADER_SIZE || k == |c.toServer|
        case TakeBody(k) => |session.body| + k == session.need || k == |c.toServer|
        case Respond(k) => k == |session.left| || |c.toClient| + k == cfg.capacity
        case _ => true
  }

  /** Reachable, by full moves alone if asked for. */
  ghost predicate ReachableBy(cfg: Config, full: bool, s: State) {
    exists steps, states :: Run(cfg, steps, states) && states[|steps|] == s && (full ==> AllFull(cfg, steps, states))
  }

  ghost predicate AllFull(cfg: Config, steps: seq<Step>, states: seq<State>)
    requires Run(cfg, steps, states)
  {
    forall k | 0 <= k < |steps| :: Full(cfg, states[k], steps[k])
  }

  lemma {:induction false} ReachableByIs(cfg: Config, full: bool, s: State)
    requires ReachableBy(cfg, full, s)
    ensures Reachable(cfg, s)
  {
  }

  lemma {:induction false} ReachableInit(cfg: Config, full: bool)
    ensures ReachableBy(cfg, full, Init(cfg))
  {
    var steps: seq<Step> := [];
    assert Run(cfg, steps, [Init(cfg)]) && [Init(cfg)][|steps|] == Init(cfg);
    assert AllFull(cfg, steps, [Init(cfg)]);
  }

  lemma {:induction false} ReachableStep(cfg: Config, full: bool, s: State, step: Step)
    requires ReachableBy(cfg, full, s) && Enabled(cfg, s, step) && (full ==> Full(cfg, s, step))
    ensures ReachableBy(cfg, full, Apply(cfg, s, step))
  {
    var steps, states :| Run(cfg, steps, states) && states[|steps|] == s && (full ==> AllFull(cfg, steps, states));
    var longer, more := steps + [step], states + [Apply(cfg, s, step)];
    RunLonger(cfg, steps, states, step);
    if full {
      forall k | 0 <= k < |longer| ensures Full(cfg, more[k], longer[k]) {
        if k < |steps| {
          assert more[k] == states[k] && longer[k] == steps[k];
        }
      }
      assert AllFull(cfg, longer, more);
    }
    assert more[|longer|] == Apply(cfg, s, step);
  }

  lemma {:induction false} RunLonger(cfg: Config, steps: seq<Step>, states: seq<State>, step: Step)
    requires Run(cfg, steps, states) && Enabled(cfg, states[|steps|], step)
    ensures Run(cfg, steps + [step], states + [Apply(cfg, states[|steps|], step)])
  {
    var longer, more := steps + [step], states + [Apply(cfg, states[|steps|], step)];
    forall k | 0 <= k < |longer|
      ensures Enabled(cfg, more[k], longer[k]) && more[k + 1] == Apply(cfg, more[k], longer[k])
    {
      if k < |steps| {
        assert more[k] == states[k] && longer[k] == steps[k];
      }
    }
  }

  // The queue

  /** Client 0 is accepted and idle; client 1 is in the queue and has sent what its channel holds of an
      empty request. */
  lemma {:induction false} ReachQueue(cfg: Config) returns (s: State)
    requires cfg.clients >= 2
    ensures ReachableBy(cfg, true, s) && |s.conns| == cfg.clients && !s.destroyed
    ensures s.server == Serving(0, ReadingHeader([]))
    ensures s.conns[0] == NEW_CONN.(phase := Idle, link := Accepted)
    ensures s.conns[1].link.NotAccepted? && !s.conns[1].failed && InCall(s.conns[1].phase)
    ensures ClientWaits(cfg.capacity, s.conns[1])
  {
    s := ReachStart(cfg);
    if cfg.capacity > 0 {
      var step := ClientStep(1, Write(if cfg.capacity < HEADER_SIZE then cfg.capacity else HEADER_SIZE));
      ReachableStep(cfg, true, s, step);
      s := Apply(cfg, s, step);
    }
  }

  lemma {:induction false} ReachStart(cfg: Config) returns (s: State)
    requires cfg.clients >= 2
    ensures ReachableBy(cfg, true, s) && |s.conns| == cfg.clients && !s.destroyed
    ensures s.server == Serving(0, ReadingHeader([]))
    ensures s.conns[0] == NEW_CONN.(phase := Idle, link := Accepted)
    ensures s.conns[1] == NEW_CONN.(phase := Sending(Frame([])), issued := [[]])
  {
    var s0 := ReachIdle(cfg);
    ReachableStep(cfg, true, s0, ClientStep(1, Connect));
    var s1 := Apply(cfg, s0, ClientStep(1, Connect));
    ReachableStep(cfg, true, s1, ClientStep(1, Start([])));
    s := Apply(cfg, s1, ClientStep(1, Start([])));
  }

  lemma {:induction false} ReachIdle(cfg: Config) returns (s: State)
    requires cfg.clients >= 2
    ensures ReachableBy(cfg, true, s) && |s.conns| == cfg.clients && !s.destroyed && !s.unlinked
    ensures s.server == Serving(0, ReadingHeader([]))
    ensures s.conns[0] == NEW_CONN.(phase := Idle, link := Accepted) && s.conns[1] == NEW_CONN
  {
    var s0 := Init(cfg);
    ReachableInit(cfg, true);
    ReachableStep(cfg, true, s0, ClientStep(0, Connect));
    var s1 := Apply(cfg, s0, ClientStep(0, Connect));
    ReachableStep(cfg, true, s1, ServerStep(Accept(0)));
    s := Apply(cfg, s1, ServerStep(Accept(0)));
  }

  /** For every handler, every channel and any number of clients from two on: a client that is accepted
      and then idle blocks the first call of the next client for as long as it stays connected. */
  lemma {:induction false} QueuedCallBlocks(cfg: Config) returns (s: State)
    requires cfg.clients >= 2
    ensures Reachable(cfg, s) && |s.conns| == cfg.clients
    ensures !s.conns[1].failed && InCall(s.conns[1].phase)
    ensures QueuedBehind(cfg.capacity, s, 1) && Blocked(cfg, s, 1)
  {
    s := ReachQueue(cfg);
    WaitingBlocks(cfg, s, 1);
  }

  /** Nor is the queue cut off when the server stops: here the first client's connection breaks, `run`
      returns an error, and the call of the next client stays blocked until the server is destroyed. */
  lemma {:induction false} AbandonedCallBlocks(cfg: Config) returns (s: State)
    requires cfg.clients >= 2
    ensures Reachable(cfg, s) && |s.conns| == cfg.clients && s.server == Stopped(ReturnedError(GeneralServerSessionError))
    ensures !s.conns[1].failed && InCall(s.conns[1].phase)
    ensures Abandoned(cfg.capacity, s, 1) && Blocked(cfg, s, 1)
  {
    var s0 := ReachQueue(cfg);
    ReachableStep(cfg, true, s0, ClientStep(0, Close));
    var s1 := Apply(cfg, s0, ClientStep(0, Close));
    ReachableStep(cfg, true, s1, ServerStep(TakeFails(OtherSystemError)));
    s := Apply(cfg, s1, ServerStep(TakeFails(OtherSystemError)));
    WaitingBlocks(cfg, s, 1);
  }

  // One client, and a handler that always answers the same

  datatype Witness = Witness(full: bool, capacity: nat, response: ProtocolMessage, app: App) {
    function Cfg(): Config {
      Config(1, capacity, (a: App, m: ProtocolMessage) => Reply(a, response), app)
    }

    /** The state with the one client accepted and the connection as given. */
    function With(c: Conn, session: Session): State {
      State([c], Serving(0, session), app, c.entries, [0], false, false)
    }

    ghost predicate Reaches(c: Conn, session: Session) {
      ReachableBy(Cfg(), full, With(c, session))
    }
  }

  lemma {:induction false} ClientMove(w: Witness, c: Conn, session: Session, a: ClientAction)
    requires w.Reaches(c, session) && !c.link.Ended? && ClientEnabled(w.capacity, c, false, a)
    requires w.full ==> Full(w.Cfg(), w.With(c, session), ClientStep(0, a))
    ensures w.Reaches(ClientApply(c, a), session)
  {
    ReachableStep(w.Cfg(), w.full, w.With(c, session), ClientStep(0, a));
    assert Apply(w.Cfg(), w.With(c, session), ClientStep(0, a)) == w.With(ClientApply(c, a), session);
  }

  lemma {:induction false} SessionMove(w: Witness, c: Conn, session: Session, a: ServerAction)
    requires w.Reaches(c, session) && SessionEnabled(w.capacity, c, session, a)
    requires w.full ==> Full(w.Cfg(), w.With(c, session), ServerStep(a))
    ensures var (d, later) := SessionApply(c, session, a); w.Reaches(d, later)
  {
    ReachableStep(w.Cfg(), w.full, w.With(c, session), ServerStep(a));
    var (d, later) := SessionApply(c, session, a);
    assert Apply(w.Cfg(), w.With(c, session), ServerStep(a)) == w.With(d, later);
  }

  lemma {:induction false} HandleMove(w: Witness, c: Conn, session: Session)
    requires w.Reaches(c, session) && ReadyToHandle(session)
    ensures w.Reaches(c.(entries := c.entries + [Entry(session.body, Reply(w.app, w.response))]),
                      Writing(Frame(w.response)))
  {
    ReachableStep(w.Cfg(), w.full, w.With(c, session), ServerStep(Handle));
    var d := c.(entries := c.entries + [Entry(session.body, Reply(w.app, w.response))]);
    assert Apply(w.Cfg(), w.With(c, session), ServerStep(Handle)) == w.With(d, Writing(Frame(w.response)));
  }

  lemma {:induction false} ReachAccepted(w: Witness)
    ensures w.Reaches(NEW_CONN.(phase := Idle, link := Accepted), ReadingHeader([]))
  {
    var cfg := w.Cfg();
    var s0 := Init(cfg);
    ReachableInit(cfg, w.full);
    ReachableStep(cfg, w.full, s0, ClientStep(0, Connect));
    var s1 := Apply(cfg, s0, ClientStep(0, Connect));
    ReachableStep(cfg, w.full, s1, ServerStep(Accept(0)));
    assert Apply(cfg, s1, ServerStep(Accept(0))) == w.With(NEW_CONN.(phase := Idle, link := Accepted), ReadingHeader([]));
  }

  lemma {:induction false} ChunkCrosses(w: Witness, c: Conn, got: Bytes, chunk: Bytes, rest: Bytes) returns (d: Conn)
    requires w.Reaches(c, ReadingHeader(got)) && !c.link.Ended?
    requires 1 <= |chunk| <= w.capacity && |got| + |chunk| <= HEADER_SIZE && (rest == [] || |chunk| == w.capacity)
    requires c.phase == Sending(chunk + rest) && c.toServer == []
    ensures w.Reaches(d, if |got + chunk| == HEADER_SIZE then ReadingBody(Length(got + chunk), []) else ReadingHeader(got + chunk))
    ensures d == c.(phase := if rest == [] then AwaitHeader else Sending(rest), sent := d.sent, taken := d.taken)
  {
    var all, k := chunk + rest, |chunk|;
    assert all[..k] == chunk && all[k..] == rest;
    ClientMove(w, c, ReadingHeader(got), Write(k));
    d := ClientApply(c, Write(k));
    assert d.toServer == chunk && chunk[..k] == chunk && chunk[k..] == [];
    SessionMove(w, d, ReadingHeader(got), TakeHeader(k));
    d := SessionApply(d, ReadingHeader(got), TakeHeader(k)).0;
  }

  /** The header of an empty request crosses, through any channel, as much at a time as it holds. */
  lemma {:induction false} HeaderCrosses(w: Witness, c: Conn, got: Bytes, left: Bytes) returns (d: Conn)
    requires w.capacity >= 1 && w.Reaches(c, ReadingHeader(got)) && !c.link.Ended?
    requires c.phase == Sending(left) && left != [] && c.toServer == [] && got + left == Header(0)
    ensures w.Reaches(d, ReadingBody(0, []))
    ensures d == c.(phase := AwaitHeader, sent := d.sent, taken := d.taken)
    decreases |left|
  {
    var k := if |left| <= w.capacity then |left| else w.capacity;
    assert left == left[..k] + left[k..];
    Assoc(got, left[..k], left[k..]);
    d := ChunkCrosses(w, c, got, left[..k], left[k..]);
    if k < |left| {
      d := HeaderCrosses(w, d, got + left[..k], left[k..]);
    } else {
      assert got + left[..k] == Header(0);
      HeaderBijection(0, Header(0));
    }
  }

  lemma {:induction false} ReachSending(w: Witness) returns (c: Conn)
    ensures w.Reaches(c, ReadingHeader([]))
    ensures c == NEW_CONN.(phase := Sending(Header(0)), link := Accepted, issued := [[]])
  {
    ReachAccepted(w);
    c := NEW_CONN.(phase := Idle, link := Accepted);
    ClientMove(w, c, ReadingHeader([]), Start([]));
    c := ClientApply(c, Start([]));
    assert Frame([]) == Header(0);
  }

  /** An empty request reaches the handler, which answers. */
  lemma {:induction false} ReachAnswered(w: Witness) returns (c: Conn)
    requires w.capacity >= 1
    ensures w.Reaches(c, Writing(Frame(w.response)))
    ensures c == NEW_CONN.(phase := AwaitHeader, link := Accepted, issued := [[]],
                           entries := [Entry([], Reply(w.app, w.response))], sent := c.sent, taken := c.taken)
  {
    var c0 := ReachSending(w);
    assert [] + Header(0) == Header(0);
    var c1 := HeaderCrosses(w, c0, [], Header(0));
    HandleMove(w, c1, ReadingBody(0, []));
    c := c1.(entries := [Entry([], Reply(w.app, w.response))]);
    assert c1.entries + [Entry([], Reply(w.app, w.response))] == c.entries;
  }

  function Zeros(n: uint32): (m: ProtocolMessage)
    ensures |m| == n
  {
    seq(n, _ => 0)
  }

  /** The client has reported an error while the response was being written, and fills its channel with
      the next request while the server waits for room. */
  lemma {:induction false} CallIntoFull(w: Witness, c: Conn, session: Session) returns (d: Conn)
    requires w.capacity >= 1 && w.Reaches(c, session) && |w.response| >= w.capacity
    requires c.phase.Idle? && c.failed && c.link.Accepted? && c.toServer == []
    requires session.Writing? && |c.toClient| == w.capacity
    ensures w.Reaches(d, session) && d.link.Accepted? && d.failed && InCall(d.phase)
    ensures CrossBlocked(w.capacity, d, session)
  {
    ClientMove(w, c, session, Start(w.response));
    d := ClientApply(c, Start(w.response));
    ClientMove(w, d, session, Write(w.capacity));
    d := ClientApply(d, Write(w.capacity));
  }

  /** One step of a session that has more to write than the step moves. */
  lemma {:induction false} WriteMove(w: Witness, c: Conn, left: Bytes, k: nat) returns (d: Conn)
    requires w.Reaches(c, Writing(left)) && 1 <= k < |left| && !c.phase.Closed? && |c.toClient| + k <= w.capacity
    requires w.full ==> |c.toClient| + k == w.capacity
    ensures w.Reaches(d, Writing(left[k..]))
    ensures d == c.(written := d.written, toClient := c.toClient + left[..k])
  {
    SessionMove(w, c, Writing(left), Respond(k));
    d := SessionApply(c, Writing(left), Respond(k)).0;
  }

  /** A channel smaller than a header: the read of the header comes back short. */
  lemma {:induction false} ShortHeader(w: Witness) returns (c: Conn, session: Session)
    requires 1 <= w.capacity < HEADER_SIZE && |w.response| >= 2 * w.capacity
    ensures w.Reaches(c, session) && session.Writing? && |c.toClient| == w.capacity
    ensures c.phase.Idle? && c.failed && c.link.Accepted? && c.toServer == []
  {
    var left, k := Frame(w.response), w.capacity;
    c := ReachAnswered(w);
    c := WriteMove(w, c, left, k);
    ClientMove(w, c, Writing(left[k..]), ReadHeader(k));
    c := ClientApply(c, ReadHeader(k));
    c := WriteMove(w, c, left[k..], k);
    session := Writing(left[k..][k..]);
  }

  /** The response is longer than the channel holds: the read of the body comes back short. */
  lemma {:induction false} ShortBody(w: Witness) returns (c: Conn, session: Session)
    requires w.capacity >= HEADER_SIZE && |w.response| > 2 * w.capacity
    ensures w.Reaches(c, session) && session.Writing? && |c.toClient| == w.capacity
    ensures c.phase.Idle? && c.failed && c.link.Accepted? && c.toServer == []
  {
    var left: Bytes;
    c, left := HeaderTaken(w);
    if c.toClient == [] {
      var k := w.capacity;
      c := WriteMove(w, c, left, k);
      left := left[k..];
    }
    var k := |c.toClient|;
    ClientMove(w, c, Writing(left), ReadBody(k));
    c := ClientApply(c, ReadBody(k));
    c := WriteMove(w, c, left, w.capacity);
    session := Writing(left[w.capacity..]);
  }

  /** The server fills the channel and the client takes the header. */
  lemma {:induction false} HeaderTaken(w: Witness) returns (c: Conn, left: Bytes)
    requires w.capacity >= HEADER_SIZE && |w.response| > 2 * w.capacity
    ensures w.Reaches(c, Writing(left)) && |left| == |Frame(w.response)| - w.capacity
    ensures c.phase == AwaitBody(|w.response|) && c.link.Accepted? && c.toServer == []
    ensures |c.toClient| == w.capacity - HEADER_SIZE
  {
    var frame, k := Frame(w.response), w.capacity;
    c := ReachAnswered(w);
    c := WriteMove(w, c, frame, k);
    left := frame[k..];
    assert c.toClient[..HEADER_SIZE] == frame[..HEADER_SIZE] == Header(|w.response|);
    HeaderBijection(|w.response|, Header(|w.response|));
    ClientMove(w, c, Writing(left), ReadHeader(HEADER_SIZE));
    c := ClientApply(c, ReadHeader(HEADER_SIZE));
  }

  /** Any channel: one byte of the header is read before the next is written. */
  lemma {:induction false} OneByteRead(w: Witness) returns (c: Conn, session: Session)
    requires w.capacity >= 1 && |w.response| >= w.capacity && !w.full
    ensures w.Reaches(c, session) && session.Writing? && |c.toClient| == w.capacity
    ensures c.phase.Idle? && c.failed && c.link.Accepted? && c.toServer == []
  {
    var left := Frame(w.response);
    c := ReachAnswered(w);
    c := WriteMove(w, c, left, 1);
    ClientMove(w, c, Writing(left[1..]), ReadHeader(1));
    c := ClientApply(c, ReadHeader(1));
    c := WriteMove(w, c, left[1..], w.capacity);
    session := Writing(left[1..][w.capacity..]);
  }

  /** For every channel of at least one byte a short read followed by another call can reach a state in
      which neither the call nor its session can take any step; below 2 GiB even if every read and every
      write moves as much as it can. */
  lemma {:induction false} DeadlockAfterShortRead(capacity: uint32, app: App) returns (w: Witness, s: State)
    requires capacity >= 1
    ensures w.capacity == capacity && (2 * capacity + 1 < LENGTH_LIMIT ==> w.full)
    ensures ReachableBy(w.Cfg(), w.full, s) && Reachable(w.Cfg(), s) && |s.conns| == 1
    ensures s.conns[0].failed && InCall(s.conns[0].phase) && SessionOf(s, 0).Some?
    ensures CrossBlocked(capacity, s.conns[0], SessionOf(s, 0).value)
    ensures Blocked(w.Cfg(), s, 0)
  {
    var c, session;
    if 2 * capacity + 1 >= LENGTH_LIMIT {
      w := Witness(false, capacity, Zeros(capacity), app);
      c, session := OneByteRead(w);
    } else {
      w := Witness(true, capacity, Zeros(2 * capacity + 1), app);
      if capacity < HEADER_SIZE {
        c, session := ShortHeader(w);
      } else {
        c, session := ShortBody(w);
      }
    }
    c := CallIntoFull(w, c, session);
    s := w.With(c, session);
    WaitingBlocks(w.Cfg(), s, 0);
  }

  // A reply that no handler gave

  /** A response that ends like the header of an empty one. */
  function Misleading(): (m: ProtocolMessage) {
    [0] + Header(0)
  }

  /** The client has read the header of the first response. */
  lemma {:induction false} ReachBody(w: Witness) returns (c: Conn)
    requires w.capacity >= HEADER_SIZE && w.response == Misleading() && !w.full
    ensures w.Reaches(c, Writing([0] + Header(0)))
    ensures c.phase == AwaitBody(5) && !c.failed && c.link.Accepted? && c.late == [] && c.issued == [[]]
    ensures c.entries == [Entry([], Reply(w.app, w.response))] && c.toServer == [] && c.toClient == []
  {
    c := ReachAnswered(w);
    var frame := Frame(w.response);
    assert frame[..HEADER_SIZE] == Header(5) && frame[HEADER_SIZE..] == [0] + Header(0);
    c := WriteMove(w, c, frame, HEADER_SIZE);
    assert c.toClient == Header(5) && Header(5)[..HEADER_SIZE] == Header(5);
    ClientMove(w, c, Writing([0] + Header(0)), ReadHeader(HEADER_SIZE));
    c := ClientApply(c, ReadHeader(HEADER_SIZE));
    HeaderBijection(5, Header(5));
  }

  /** The body of the first response comes in two parts; the client takes the first and reports an error. */
  lemma {:induction false} ReachLeftover(w: Witness) returns (c: Conn)
    requires w.capacity >= HEADER_SIZE && w.response == Misleading() && !w.full
    ensures w.Reaches(c, ReadingHeader([]))
    ensures c.phase.Idle? && c.failed && c.link.Accepted? && c.late == [] && c.issued == [[]]
    ensures c.entries == [Entry([], Reply(w.app, w.response))] && c.toServer == [] && c.toClient == Header(0)
  {
    c := ReachBody(w);
    var left := [0] + Header(0);
    assert left[..1] == [0] && left[1..] == Header(0);
    SessionMove(w, c, Writing(left), Respond(1));
    c := SessionApply(c, Writing(left), Respond(1)).0;
    ClientMove(w, c, Writing(Header(0)), ReadBody(1));
    c := ClientApply(c, ReadBody(1));
    assert c.toClient == [] && Header(0)[..HEADER_SIZE] == Header(0);
    SessionMove(w, c, Writing(Header(0)), Respond(HEADER_SIZE));
    c := SessionApply(c, Writing(Header(0)), Respond(HEADER_SIZE)).0;
  }

  /** The next call sends its request and takes the leftover for the header of its reply. */
  lemma {:induction false} ReachMisread(w: Witness) returns (c: Conn)
    requires w.capacity >= HEADER_SIZE && w.response == Misleading() && !w.full
    ensures w.Reaches(c, ReadingHeader([]))
    ensures c.phase == AwaitBody(0) && c.failed && c.link.Accepted? && c.late == []
    ensures |c.issued| == 2 && c.entries == [Entry([], Reply(w.app, w.response))]
  {
    var session := ReadingHeader([]);
    c := ReachLeftover(w);
    ClientMove(w, c, session, Start([]));
    c := ClientApply(c, Start([]));
    ClientMove(w, c, session, Write(HEADER_SIZE));
    c := ClientApply(c, Write(HEADER_SIZE));
    assert c.phase.AwaitHeader? && c.toClient[..HEADER_SIZE] == Header(0);
    ClientMove(w, c, session, ReadHeader(HEADER_SIZE));
    c := ClientApply(c, ReadHeader(HEADER_SIZE));
    HeaderBijection(0, Header(0));
  }

  /** After a short read the next call can succeed with a payload that is no response of the handler to
      any request, before the handler has even been called: the rest of one body is read as a header.
      Below four bytes no receive succeeds at all. */
  lemma {:induction false} FalseReplyAfterShortRead(capacity: nat, app: App) returns (s: State)
    requires capacity >= HEADER_SIZE
    ensures var w := Witness(false, capacity, Misleading(), app);
            && Reachable(w.Cfg(), s) && |s.conns| == 1
            && (forall a, m :: w.Cfg().handler(a, m) == Reply(a, Misleading()))
    ensures s.conns[0].late == [[]] && [] != Misleading()
    ensures |s.conns[0].issued| == 2 && |s.conns[0].entries| == 1
  {
    var w := Witness(false, capacity, Misleading(), app);
    var c := ReachMisread(w);
    ClientMove(w, c, ReadingHeader([]), ReadBody(0));
    c := ClientApply(c, ReadBody(0));
    s := w.With(c, ReadingHeader([]));
    ReachableByIs(w.Cfg(), w.full, s);
  }
}
