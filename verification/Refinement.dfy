/** The transition system and the imperative classes describe the same behaviour: sessions, receives and
    whole server runs of the one are those of the functions that the other is proved against. */
module Refinement {
  import opened Wrappers
  import opened Framing
  import opened Handling
  import opened Sockets
  import opened Protocol
  import opened Invariant
  import opened LockStep
  import opened Serialisation
  import opened UnixDomainClient
  import opened UnixDomainServer
  import opened AcceptLoop

  // Sessions

  /** The peer that a session has met so far: what was taken from it, and how reading or writing failed
      if the session has ended. */
  function PeerSeen(c: Conn): Peer {
    Peer(c.taken,
         if c.link == Ended(Failed(GeneralServerSessionError)) then OtherSystemError else EndOfFile,
         if c.link == Ended(Failed(ServerError.UnableToSendMessage)) then Limited(|c.written|) else Unlimited)
  }

  /** Serving more requests extends the log. */
  lemma {:induction false} ServePrefix(h: RequestHandler, app: App, a: seq<ProtocolMessage>, b: seq<ProtocolMessage>)
    requires a <= b
    ensures Serve(h, app, a) <= Serve(h, app, b)
  {
    assert b == a + b[|a|..];
    ServeConcat(h, app, a, b[|a|..]);
  }

  lemma {:induction false} EndsAtThrow(run: SessionRun, entries: seq<Entry>)
    requires HandlerThrew(run) && run.entries <= entries && AllReplied(entries[..|entries| - 1])
    ensures run.entries == entries
  {
    var n := |run.entries| - 1;
    assert run.entries[n] == entries[n];
    assert n == |entries| - 1;
  }

  lemma {:induction false} SameWhenRanOut(c: Conn, run: SessionRun)
    requires c.link.Ended? && SessionInv(c, None) && run.entries <= c.entries && RanOut(PeerSeen(c), run)
    requires PeerSeen(c).room.Limited? ==> |run.output| <= PeerSeen(c).room.n
    ensures run.entries == c.entries && run.output == c.written && run.end == c.link.end
  {
    assert |run.entries| == |Requests(run.entries)| == |c.entries|;
    assert run.entries == c.entries;
  }

  lemma {:induction false} SameWhenThrew(c: Conn, run: SessionRun)
    requires c.link.Ended? && SessionInv(c, None) && run.entries <= c.entries && UnixDomainServer.HandlerThrew(run)
    ensures run.entries == c.entries && run.output == c.written && run.end == c.link.end
  {
    EndsAtThrow(run, c.entries);
  }

  lemma {:induction false} SameWhenStopped(c: Conn, run: SessionRun)
    requires c.link.Ended? && SessionInv(c, None) && run.entries <= c.entries && PeerStoppedReading(PeerSeen(c), run)
    ensures run.entries == c.entries && run.output == c.written && run.end == c.link.end
  {
    assert WriteFailed(c, c.link.end);
    if run.entries != c.entries {
      ResponsesGrow(run.entries, Front(c.entries));
      assert false;
    }
  }

  /** An ended connection is the session that the session loop makes of its peer: the same calls, the same
      bytes, the same state and the same end. */
  lemma {:induction false} EndedIsSession(h: RequestHandler, app: App, c: Conn)
    requires c.link.Ended? && SessionInv(c, None) && c.entries == Serve(h, app, Requests(c.entries))
    ensures SessionOn(h, app, PeerSeen(c))
            == SessionRun(c.entries, c.written, AppAfter(h, app, Requests(c.entries)), c.link.end)
  {
    var peer := PeerSeen(c);
    var run := SessionOn(h, app, peer);
    SessionCalls(h, app, peer);
    SessionRefines(h, app, peer);
    SessionFits(h, app, peer);
    ServePrefix(h, app, Requests(run.entries), Requests(c.entries));
    if RanOut(peer, run) {
      SameWhenRanOut(c, run);
    } else if UnixDomainServer.HandlerThrew(run) {
      SameWhenThrew(c, run);
    } else {
      SameWhenStopped(c, run);
    }
  }

  /** Calls served in order, one for each complete frame and all answered, are the calls of the session
      loop. */
  lemma {:induction false} SameSession(h: RequestHandler, app: App, entries: seq<Entry>, taken: Bytes)
    requires entries == Serve(h, app, Requests(entries))
    requires Requests(entries) == SplitFrames(taken).frames
    requires entries == [] || AllReplied(entries[..|entries| - 1])
    ensures var run := SessionOn(h, app, Peer(taken, EndOfFile, Unlimited));
            run.entries == entries && run.output == Frames(Responses(entries))
  {
    var peer := Peer(taken, EndOfFile, Unlimited);
    var run := SessionOn(h, app, peer);
    SessionCalls(h, app, peer);
    SessionRefines(h, app, peer);
    ServePrefix(h, app, Requests(run.entries), Requests(entries));
    if UnixDomainServer.HandlerThrew(run) {
      EndsAtThrow(run, entries);
    } else {
      assert |run.entries| == |Requests(run.entries)| == |entries|;
    }
  }

  /** The call that a session is about to make, if it is. */
  function DueCall(h: RequestHandler, app: App, session: Option<Session>): seq<Entry> {
    if session.Some? && ReadyToHandle(session.value)
    then [Entry(session.value.body, h(app, session.value.body))] else []
  }

  /** A session that goes on has made the calls of the session loop but for the one that is due, and has
      written a prefix of what the loop writes. */
  lemma {:induction false} RunningIsSession(h: RequestHandler, app: App, c: Conn, session: Session)
    requires c.link.Accepted? && SessionInv(c, Some(session)) && c.entries == Serve(h, app, Requests(c.entries))
    ensures var run := SessionOn(h, app, Peer(c.taken, EndOfFile, Unlimited));
            && run.entries == c.entries + DueCall(h, AppAfter(h, app, Requests(c.entries)), Some(session))
            && c.written <= run.output
  {
    var due := DueCall(h, AppAfter(h, app, Requests(c.entries)), Some(session));
    SessionBytes(c, session);
    if ReadyToHandle(session) {
      DueIsSession(h, app, c.entries, due[0], c.taken, session.need);
      ResponsesGrow(c.entries, c.entries + due);
    } else {
      TailIsNoFrame(c, session);
      IdleIsSession(h, app, c.entries, c.taken, Tail(session));
      assert c.entries + due == c.entries;
    }
  }

  lemma {:induction false} IdleIsSession(
    h: RequestHandler, app: App, entries: seq<Entry>, taken: Bytes, tail: Bytes)
    requires entries == Serve(h, app, Requests(entries)) && AllReplied(entries)
    requires NextFrame(tail).None? && taken == Frames(Requests(entries)) + tail
    ensures var run := SessionOn(h, app, Peer(taken, EndOfFile, Unlimited));
            run.entries == entries && run.output == Frames(Responses(entries))
  {
    SplitOfFrames(Requests(entries), tail);
    SameSession(h, app, entries, taken);
  }

  lemma {:induction false} TailIsNoFrame(c: Conn, session: Session)
    requires SessionAt(c, session) && !ReadyToHandle(session)
    ensures NextFrame(Tail(session)).None?
  {
    if session.ReadingBody? {
      PartialFrame(session.need, session.body);
    }
  }

  lemma {:induction false} DueIsSession(
    h: RequestHandler, app: App, entries: seq<Entry>, e: Entry, taken: Bytes, need: uint32)
    requires entries == Serve(h, app, Requests(entries)) && AllReplied(entries)
    requires e.outcome == h(AppAfter(h, app, Requests(entries)), e.request)
    requires |e.request| == need && taken == Frames(Requests(entries)) + (Header(need) + e.request)
    ensures var run := SessionOn(h, app, Peer(taken, EndOfFile, Unlimited));
            run.entries == entries + [e] && run.output == Frames(Responses(entries + [e]))
  {
    ServeSnoc(h, app, Requests(entries), e.request);
    RequestsSnoc(entries, e);
    FramesSnoc(Requests(entries), e.request);
    SplitOfFrames(Requests(entries) + [e.request], []);
    assert taken == Frames(Requests(entries) + [e.request]) + [];
    assert (entries + [e])[..|entries|] == entries;
    SameSession(h, app, entries + [e], taken);
  }

  /** In every reachable state a connection is the session of the session loop on what it has taken: an
      ended one exactly, its end included, and a running one up to where it stands. */
  lemma {:induction false} StepsRefineSession(cfg: Config, s: State, i: nat) returns (start: App)
    requires Reachable(cfg, s) && i < |s.conns|
    ensures var c := s.conns[i];
            var run, app := SessionOn(cfg.handler, start, PeerSeen(c)), AppAfter(cfg.handler, start, Requests(c.entries));
            if c.link.Ended? then run == SessionRun(c.entries, c.written, app, c.link.end)
            else run.entries == c.entries + DueCall(cfg.handler, app, SessionOf(s, i)) && c.written <= run.output
  {
    start := SessionServed(cfg, s, i);
    ReachableInv(cfg, s);
    assert ConnAt(cfg, s, i);
    match s.conns[i].link {
      case NotAccepted =>
      case Accepted => RunningIsSession(cfg.handler, start, s.conns[i], s.server.session);
      case Ended(_) => EndedIsSession(cfg.handler, start, s.conns[i]);
    }
  }

  // Whole runs of the server

  function PeersSeen(order: seq<nat>, conns: seq<Conn>): (peers: seq<Peer>)
    requires forall k | 0 <= k < |order| :: order[k] < |conns|
    ensures |peers| == |order|
  {
    seq(|order|, k requires 0 <= k < |order| => PeerSeen(conns[order[k]]))
  }

  /** The state of the application when session `k` begins. */
  function AppAt(cfg: Config, s: State, k: nat): App
    requires k <= |s.order| && forall j | 0 <= j < |s.order| :: s.order[j] < |s.conns|
  {
    AppAfter(cfg.handler, cfg.app, Requests(Concatenated(s.order[..k], s.conns)))
  }

  function SessionSeen(cfg: Config, s: State, k: nat): SessionRun
    requires k < |s.order| && forall j | 0 <= j < |s.order| :: s.order[j] < |s.conns|
    requires s.conns[s.order[k]].link.Ended?
  {
    var c := s.conns[s.order[k]];
    SessionRun(c.entries, c.written, AppAt(cfg, s, k + 1), c.link.end)
  }

  /** The first `n` sessions, all of which have ended. */
  function SessionsSeen(cfg: Config, s: State, n: nat): (sessions: seq<SessionRun>)
    requires n <= |s.order| && forall j | 0 <= j < |s.order| :: s.order[j] < |s.conns|
    requires forall k | 0 <= k < n :: s.conns[s.order[k]].link.Ended?
    ensures |sessions| == n
  {
    if n == 0 then [] else SessionsSeen(cfg, s, n - 1) + [SessionSeen(cfg, s, n - 1)]
  }

  lemma {:induction false} SessionIsNext(cfg: Config, s: State, k: nat)
    requires Reachable(cfg, s) && k < |s.order|
    requires forall j | 0 <= j < |s.order| :: s.order[j] < |s.conns|
    requires s.conns[s.order[k]].link.Ended?
    ensures SessionOn(cfg.handler, AppAt(cfg, s, k), PeersSeen(s.order, s.conns)[k]) == SessionSeen(cfg, s, k)
  {
    ReachableInv(cfg, s);
    assert ConnAt(cfg, s, s.order[k]);
    SessionPart(cfg.handler, cfg.app, s.log, s.order, s.conns, k);
    EndedIsSession(cfg.handler, AppAt(cfg, s, k), s.conns[s.order[k]]);
    AppNext(cfg.handler, cfg.app, s.order, s.conns, k);
  }

  lemma {:induction false} AppNext(h: RequestHandler, app: App, order: seq<nat>, conns: seq<Conn>, k: nat)
    requires k < |order| && forall j | 0 <= j < |order| :: order[j] < |conns|
    ensures var before, entries := Concatenated(order[..k], conns), conns[order[k]].entries;
            AppAfter(h, app, Requests(Concatenated(order[..k + 1], conns)))
            == AppAfter(h, AppAfter(h, app, Requests(before)), Requests(entries))
  {
    var before, entries := Concatenated(order[..k], conns), conns[order[k]].entries;
    assert order[..k + 1][..k] == order[..k];
    assert Requests(before + entries) == Requests(before) + Requests(entries);
    ServeConcat(h, app, Requests(before), Requests(entries));
  }

  /** As long as sessions end normally, the run of the accept loop goes through them in turn. */
  lemma {:induction false} RunUpTo(cfg: Config, s: State, n: nat)
    requires Reachable(cfg, s) && n <= |s.order|
    requires forall j | 0 <= j < |s.order| :: s.order[j] < |s.conns|
    requires forall k | 0 <= k < n :: s.conns[s.order[k]].link == Ended(Completed)
    ensures var peers := PeersSeen(s.order, s.conns);
            Continues(RunOn(cfg.handler, cfg.app, peers), SessionsSeen(cfg, s, n), cfg.handler, AppAt(cfg, s, n), peers)
  {
    var peers := PeersSeen(s.order, s.conns);
    var total := RunOn(cfg.handler, cfg.app, peers);
    if n == 0 {
      assert peers[0..] == peers && [] + total.sessions == total.sessions;
    } else {
      RunUpTo(cfg, s, n - 1);
      SessionIsNext(cfg, s, n - 1);
      NextSession(total, SessionsSeen(cfg, s, n - 1), cfg.handler, AppAt(cfg, s, n - 1), peers, SessionSeen(cfg, s, n - 1));
    }
  }

  lemma {:induction false} SeenEntries(cfg: Config, s: State, n: nat)
    requires n <= |s.order| && forall j | 0 <= j < |s.order| :: s.order[j] < |s.conns|
    requires forall k | 0 <= k < n :: s.conns[s.order[k]].link.Ended?
    ensures AllEntries(SessionsSeen(cfg, s, n)) == Concatenated(s.order[..n], s.conns)
  {
    if n > 0 {
      SeenEntries(cfg, s, n - 1);
      assert s.order[..n][..n - 1] == s.order[..n - 1];
      AllEntriesSnoc(SessionsSeen(cfg, s, n - 1), SessionSeen(cfg, s, n - 1));
    }
  }

  /** Of the sessions of a stopped server all but the last ended normally. */
  lemma {:induction false} StoppedSessions(cfg: Config, s: State)
    requires Inv(cfg, s) && s.server.Stopped?
    ensures forall k | 0 <= k < |s.order| :: s.order[k] < |s.conns| && s.conns[s.order[k]].link.Ended?
    ensures forall k | 0 <= k < |s.order| - 1 :: s.conns[s.order[k]].link == Ended(Completed)
    ensures if s.order != [] && s.conns[s.order[|s.order| - 1]].link != Ended(Completed)
            then StopOf(s.conns[s.order[|s.order| - 1]].link.end) == Some(s.server.outcome)
            else s.server.outcome == ReturnedError(GeneralServerError)
  {
    forall k | 0 <= k < |s.order| ensures s.order[k] < |s.conns| && s.conns[s.order[k]].link.Ended? {
      assert s.order[k] in s.order;
    }
    forall k | 0 <= k < |s.order| - 1 ensures s.conns[s.order[k]].link == Ended(Completed) {
      assert !AbnormalEnd(s.conns[s.order[k]]);
    }
    if s.order != [] && AbnormalEnd(s.conns[s.order[|s.order| - 1]]) {
      assert s.server == AfterSession(s.conns[s.order[|s.order| - 1]].link.end);
    }
  }

  /** When the server has stopped, its whole life is the run of the accept loop on the peers it met, one
      session for each accepted client, with the same calls, bytes, ends, state and outcome. */
  lemma {:induction false} StoppedIsRun(cfg: Config, s: State)
    requires Reachable(cfg, s) && s.server.Stopped?
    ensures forall k | 0 <= k < |s.order| :: s.order[k] < |s.conns| && s.conns[s.order[k]].link.Ended?
    ensures RunOn(cfg.handler, cfg.app, PeersSeen(s.order, s.conns))
            == ServerRun(SessionsSeen(cfg, s, |s.order|), s.app, s.server.outcome)
    ensures AllEntries(SessionsSeen(cfg, s, |s.order|)) == s.log
  {
    ReachableInv(cfg, s);
    StoppedSessions(cfg, s);
    var n := |s.order|;
    assert s.order[..n] == s.order;
    SeenEntries(cfg, s, n);
    if n > 0 && s.conns[s.order[n - 1]].link != Ended(Completed) {
      RunStops(cfg, s, n - 1);
    } else {
      RunUpTo(cfg, s, n);
      NoSession(RunOn(cfg.handler, cfg.app, PeersSeen(s.order, s.conns)), SessionsSeen(cfg, s, n), cfg.handler,
                AppAt(cfg, s, n), PeersSeen(s.order, s.conns));
    }
  }

  /** The server process ends with an exception exactly if some call of the handler threw one that is not
      a system error. */
  lemma {:induction false} EscapesIff(cfg: Config, s: State)
    requires Reachable(cfg, s) && s.server.Stopped?
    ensures s.server.outcome == Escaped <==> exists e <- s.log :: Uncaught(e)
  {
    StoppedIsRun(cfg, s);
    EscapedIff(cfg.handler, cfg.app, PeersSeen(s.order, s.conns));
  }

  /** An abnormal end of a session is the end of the run. */
  lemma {:induction false} RunStops(cfg: Config, s: State, n: nat)
    requires Reachable(cfg, s) && n < |s.order|
    requires forall j | 0 <= j < |s.order| :: s.order[j] < |s.conns|
    requires forall k | 0 <= k <= n :: s.conns[s.order[k]].link.Ended?
    requires forall k | 0 <= k < n :: s.conns[s.order[k]].link == Ended(Completed)
    requires StopOf(s.conns[s.order[n]].link.end).Some?
    ensures RunOn(cfg.handler, cfg.app, PeersSeen(s.order, s.conns))
            == ServerRun(SessionsSeen(cfg, s, n + 1), AppAt(cfg, s, n + 1), StopOf(s.conns[s.order[n]].link.end).value)
  {
    var peers := PeersSeen(s.order, s.conns);
    RunUpTo(cfg, s, n);
    SessionIsNext(cfg, s, n);
    NextSession(RunOn(cfg.handler, cfg.app, peers), SessionsSeen(cfg, s, n), cfg.handler, AppAt(cfg, s, n), peers,
                SessionSeen(cfg, s, n));
  }

  // Sends and receives

  /** Since `c` the client has sent part of the frame of a request and has the rest left. */
  predicate Sends(c: Conn, d: Conn, request: ProtocolMessage) {
    d.phase.Sending? && d.phase.left != [] && c.sent <= d.sent && d.sent + d.phase.left == c.sent + Frame(request)
  }

  lemma {:induction false} SendBegins(c: Conn, request: ProtocolMessage)
    requires ClientReady(c, Start(request))
    ensures Sends(c, ClientApply(c, Start(request)), request)
  {
  }

  /** The write steps of a call, which begins with the whole frame left, are the send of the client class: each
      step keeps that account, a last step leaves the peer with all that one with unlimited room absorbs,
      and a failing one with what one with room for just the bytes sent absorbs, which is not the frame. */
  lemma {:induction false} WritesRefineSend(c: Conn, d: Conn, request: ProtocolMessage, a: ClientAction)
    requires Sends(c, d, request) && ClientReady(d, a) && (a.Write? || a.WriteFails?)
    ensures var e := ClientApply(d, a);
            match e.phase
            case Sending(_) => Sends(c, e, request)
            case AwaitHeader => a.Write? && e.sent == c.sent + Absorbed(Unlimited, Frame(request))
            case _ =>
              var taken := Absorbed(Limited(|e.sent| - |c.sent|), Frame(request));
              a.WriteFails? && e.failed && e.sent == c.sent + taken && taken != Frame(request)
  {
    var left, frame := d.phase.left, Frame(request);
    if a.Write? {
      assert left == left[..a.k] + left[a.k..];
      Assoc(d.sent, left[..a.k], left[a.k..]);
    } else {
      var n := |d.sent| - |c.sent|;
      assert (c.sent + frame)[..|d.sent|] == d.sent;
      assert d.sent == c.sent + frame[..n];
    }
  }


  /** From `c` to `e` the client has made one receive that went as `got` says. */
  ghost predicate Records(c: Conn, e: Conn, incoming: Bytes, got: Received) {
    && got.taken <= |incoming| && e.phase.Idle? && e.received == c.received + incoming[..got.taken]
    && match got.result
       case Err(_) => e.failed && e.replies == c.replies && e.late == c.late
       case Ok(m) =>
         && e.failed == c.failed
         && e.replies == (if c.failed then c.replies else c.replies + [m])
         && e.late == (if c.failed then c.late + [m] else c.late)
  }

  /** The two reads of a client that waits for a reply are the receive of the client class: `d` is the
      connection between them, in which more bytes may have arrived, and `incoming` whatever the server
      writes from the first read on. */
  lemma {:induction false} ReadsRefineReceive(c: Conn, d: Conn, k: nat, incoming: Bytes)
    requires ClientReady(c, ReadHeader(HEADER_SIZE)) && ClientReady(d, ReadBody(k))
    requires var mid := ClientApply(c, ReadHeader(HEADER_SIZE));
             && d.phase == mid.phase && d.failed == mid.failed && d.received == mid.received
             && d.replies == mid.replies && d.late == mid.late
    requires c.toClient[..HEADER_SIZE] + d.toClient <= incoming
    ensures Delivers(incoming, HEADER_SIZE, k)
    ensures Records(c, ClientApply(d, ReadBody(k)), incoming, ReceiveOn(incoming, HEADER_SIZE, k))
  {
    var header := c.toClient[..HEADER_SIZE];
    assert incoming[..HEADER_SIZE] == header;
    assert incoming[HEADER_SIZE..][..k] == d.toClient[..k];
    assert incoming[..HEADER_SIZE + k] == header + d.toClient[..k];
    Assoc(c.received, header, d.toClient[..k]);
  }

  /** So is a first read that comes back short. */
  lemma {:induction false} ShortReadRefinesReceive(c: Conn, k: nat, incoming: Bytes)
    requires ClientReady(c, ReadHeader(k)) && k < HEADER_SIZE && c.toClient <= incoming
    ensures Delivers(incoming, k, 0)
    ensures Records(c, ClientApply(c, ReadHeader(k)), incoming, ReceiveOn(incoming, k, 0))
  {
    assert incoming[..k] == c.toClient[..k];
  }

  /** And a read that throws, the first one or the second. */
  lemma {:induction false} FailedReadRefinesReceive(c: Conn, d: Conn, incoming: Bytes)
    requires c.phase.AwaitHeader? && ClientReady(d, ReadFails)
    requires if d.phase.AwaitHeader? then d.received == c.received
             else |incoming| >= HEADER_SIZE && d.phase.expected == Length(incoming[..HEADER_SIZE])
                  && d.received == c.received + incoming[..HEADER_SIZE]
    requires d.failed == c.failed && d.replies == c.replies && d.late == c.late
    ensures var first := if d.phase.AwaitHeader? then 0 else HEADER_SIZE;
            && Delivers(incoming, first, 0)
            && ReceiveOn(incoming, first, 0).result == Err(UnableToReceiveMessage)
            && Records(c, ClientApply(d, ReadFails), incoming, ReceiveOn(incoming, first, 0))
  {
    assert c.received + incoming[..0] == c.received;
  }
}
