/** The accept loop: one session after another until an error or an exception ends it. */
module AcceptLoop {
  import opened Wrappers
  import opened Framing
  import opened Handling
  import opened Sockets
  import opened UnixDomainServer

  datatype ServerRun = ServerRun(sessions: seq<SessionRun>, app: App, outcome: RunOutcome)

  /** What `run` does with the peers that connect, in order; after the last, accepting fails. */
  function RunOn(h: RequestHandler, app: App, peers: seq<Peer>): ServerRun {
    if peers == [] then ServerRun([], app, ReturnedError(GeneralServerError))
    else
      var session := SessionOn(h, app, peers[0]);
      match StopOf(session.end)
      case Some(outcome) => ServerRun([session], session.app, outcome)
      case None => PrependSessions([session], RunOn(h, session.app, peers[1..]))
  }

  /** How `run` ends after a session, if it does. */
  function StopOf(end: SessionEnd): Option<RunOutcome> {
    match end
    case Completed => None
    case Failed(error) => Some(ReturnedError(error))
    case Thrown => Some(Escaped)
  }

  function PrependSessions(sessions: seq<SessionRun>, run: ServerRun): ServerRun {
    run.(sessions := sessions + run.sessions)
  }

  /** A connection as the operating system hands it over. */
  datatype Connection = Connection(peer: Peer, writeFault: SystemFault)

  function PeersOf(backlog: seq<Connection>): (peers: seq<Peer>)
    ensures |peers| == |backlog|
  {
    seq(|backlog|, j requires 0 <= j < |backlog| => backlog[j].peer)
  }

  /** The whole run is the sessions so far, then the run on the peers left. */
  ghost predicate Continues(
    total: ServerRun, sessions: seq<SessionRun>, h: RequestHandler, app: App, peers: seq<Peer>)
  {
    && |sessions| <= |peers|
    && var left := RunOn(h, app, peers[|sessions|..]);
       total.sessions == sessions + left.sessions && total.app == left.app && total.outcome == left.outcome
  }

  lemma {:induction false} NoSession(
    total: ServerRun, sessions: seq<SessionRun>, h: RequestHandler, app: App, peers: seq<Peer>)
    requires Continues(total, sessions, h, app, peers) && |sessions| == |peers|
    ensures total == ServerRun(sessions, app, ReturnedError(GeneralServerError))
  {
    assert peers[|sessions|..] == [];
  }

  lemma {:induction false} NextSession(
    total: ServerRun, sessions: seq<SessionRun>, h: RequestHandler, app: App, peers: seq<Peer>, session: SessionRun)
    requires Continues(total, sessions, h, app, peers) && |sessions| < |peers|
    requires session == SessionOn(h, app, peers[|sessions|])
    ensures match StopOf(session.end)
            case Some(outcome) => total == ServerRun(sessions + [session], session.app, outcome)
            case None => Continues(total, sessions + [session], h, session.app, peers)
  {
    var n := |sessions|;
    assert peers[n..][0] == peers[n] && peers[n..][1..] == peers[n + 1..];
    Assoc(sessions, [session], RunOn(h, session.app, peers[n + 1..]).sessions);
  }

  class SyncUnixDomainServer {
    const handler: RequestHandler
    var app: App
    /** The connections clients will make, in the order they are accepted. */
    var backlog: seq<Connection>
    /** What each accepted client was sent, in the order they were accepted. */
    var delivered: seq<Bytes>
    var unlinked: bool

    constructor (handler: RequestHandler, app: App, backlog: seq<Connection>)
      ensures this.handler == handler && this.app == app && this.backlog == backlog
      ensures delivered == [] && !unlinked
    {
      this.handler, this.app, this.backlog, this.delivered, this.unlinked := handler, app, backlog, [], false;
    }

    /** One session on an accepted connection, and whether `run` ends with it. */
    method Serve(connection: Connection) returns (stop: Option<RunOutcome>, ghost run: SessionRun)
      requires !unlinked
      modifies `app, `delivered, `unlinked
      ensures run == SessionOn(handler, old(app), connection.peer) && app == run.app
      ensures stop == StopOf(run.end) && (unlinked <==> run.end.Failed?)
      ensures delivered == old(delivered) + [run.output]
    {
      var peer := connection.peer;
      run := SessionOn(handler, app, peer);
      var socket := new Socket(peer.incoming, peer.readFault, peer.room, connection.writeFault);
      var session := new SyncUnixDomainSession(socket, handler, app);
      assert session.Remaining() == peer;
      var end;
      ghost var entries;
      end, entries := session.Start();
      assert [] + run.output == run.output;
      app, delivered := session.app, delivered + [socket.outgoing];
      unlinked := end.Failed?;
      stop := StopOf(end);
    }

    /** Accepting throws once no more clients connect; the exception is caught after the loop. */
    method Run() returns (outcome: RunOutcome, ghost sessions: seq<SessionRun>)
      requires !unlinked && delivered == []
      modifies this
      ensures var run := RunOn(handler, old(app), PeersOf(old(backlog)));
              outcome == run.outcome && app == run.app && sessions == run.sessions
      ensures outcome != ReturnedSuccess && (unlinked <==> outcome.ReturnedError?)
      ensures |delivered| == |sessions| && forall j | 0 <= j < |sessions| :: delivered[j] == sessions[j].output
    {
      sessions := [];
      ghost var peers := PeersOf(backlog);
      ghost var total := RunOn(handler, app, peers);
      while backlog != []
        invariant !unlinked && |sessions| <= |peers| && PeersOf(backlog) == peers[|sessions|..]
        invariant Continues(total, sessions, handler, app, peers)
        invariant |delivered| == |sessions| && forall j | 0 <= j < |sessions| :: delivered[j] == sessions[j].output
        decreases |backlog|
      {
        ghost var before := app;
        var connection := backlog[0];
        assert connection.peer == PeersOf(backlog)[0] == peers[|sessions|];
        backlog := backlog[1..];
        var stop;
        ghost var run;
        stop, run := Serve(connection);
        NextSession(total, sessions, handler, before, peers, run);
        sessions := sessions + [run];
        if stop.Some? {
          return stop.value, sessions;
        }
      }
      NoSession(total, sessions, handler, app, peers);
      unlinked := true;
      outcome := ReturnedError(GeneralServerError);
    }
  }

  /** The handler's calls over all sessions, in order. */
  function AllEntries(sessions: seq<SessionRun>): seq<Entry> {
    if sessions == [] then [] else sessions[0].entries + AllEntries(sessions[1..])
  }

  lemma {:induction false} AllEntriesSnoc(sessions: seq<SessionRun>, last: SessionRun)
    ensures AllEntries(sessions + [last]) == AllEntries(sessions) + last.entries
  {
    if sessions == [] {
      assert AllEntries([last]) == last.entries + AllEntries([]);
    } else {
      assert (sessions + [last])[1..] == sessions[1..] + [last];
      AllEntriesSnoc(sessions[1..], last);
      Assoc(sessions[0].entries, AllEntries(sessions[1..]), last.entries);
    }
  }

  /** The accept loop runs its clients one after another: the calls across all sessions are those of
      one process serving them in order. */
  lemma {:induction false} RunServesInOrder(h: RequestHandler, app: App, peers: seq<Peer>)
    ensures var run := RunOn(h, app, peers);
            && AllEntries(run.sessions) == Serve(h, app, Requests(AllEntries(run.sessions)))
            && run.app == AppAfter(h, app, Requests(AllEntries(run.sessions)))
  {
    if peers != [] {
      var session := SessionOn(h, app, peers[0]);
      SessionCalls(h, app, peers[0]);
      if session.end.Completed? {
        var later := RunOn(h, session.app, peers[1..]);
        RunServesInOrder(h, session.app, peers[1..]);
        assert ([session] + later.sessions)[1..] == later.sessions;
        ServedJoin(h, app, session.entries, AllEntries(later.sessions));
      } else {
        assert AllEntries([session]) == session.entries + AllEntries([]) == session.entries;
      }
    }
  }

  /** No sequence of peers makes `run` return success; each session but the last ended without an
      error, and peers are left unaccepted only after an error or an exception. */
  lemma {:induction false} RunOutcomes(h: RequestHandler, app: App, peers: seq<Peer>)
    ensures var run := RunOn(h, app, peers);
            && !run.outcome.ReturnedSuccess?
            && |run.sessions| <= |peers|
            && (forall j | 0 <= j < |run.sessions| - 1 :: run.sessions[j].end.Completed?)
            && (|run.sessions| < |peers| ==> run.sessions != [] && !run.sessions[|run.sessions| - 1].end.Completed?)
            && (run.outcome.Escaped? <==> run.sessions != [] && run.sessions[|run.sessions| - 1].end.Thrown?)
            && (run.sessions != [] && run.sessions[|run.sessions| - 1].end.Failed? ==>
                  run.outcome == ReturnedError(run.sessions[|run.sessions| - 1].end.error))
            && ((run.sessions != [] ==> run.sessions[|run.sessions| - 1].end.Completed?) ==>
                  |run.sessions| == |peers| && run.outcome == ReturnedError(GeneralServerError))
  {
    if peers != [] && SessionOn(h, app, peers[0]).end.Completed? {
      RunOutcomes(h, SessionOn(h, app, peers[0]).app, peers[1..]);
    }
  }

  /** Each session of a run is a session on its peer, begun in some state of the application. */
  lemma {:induction false} SessionOfRun(h: RequestHandler, app: App, peers: seq<Peer>, j: nat) returns (start: App)
    requires j < |RunOn(h, app, peers).sessions|
    ensures j < |peers| && RunOn(h, app, peers).sessions[j] == SessionOn(h, start, peers[j])
  {
    if j == 0 {
      start := app;
    } else {
      start := SessionOfRun(h, SessionOn(h, app, peers[0]).app, peers[1..], j - 1);
    }
  }

  /** The call threw an exception that no part of the server catches. */
  predicate Uncaught(e: Entry) {
    e.outcome.Throws? && e.outcome.fault.NonSystemException?
  }

  /** In a session such a call is the last one and is answered with nothing. */
  lemma {:induction false} UncaughtIsLast(peer: Peer, run: SessionRun, n: nat)
    requires RanOut(peer, run) || HandlerThrew(run) || PeerStoppedReading(peer, run)
    requires n < |run.entries| && Uncaught(run.entries[n])
    ensures run.end == Thrown && n == |run.entries| - 1 && run.output == Frames(Responses(run.entries[..n]))
  {
    var last := |run.entries| - 1;
    assert forall k | 0 <= k < last :: run.entries[..last][k] == run.entries[k];
    assert run.entries == run.entries[..n] + [run.entries[n]];
    ResponsesSnoc(run.entries[..n], run.entries[n]);
    assert Responses(run.entries[..n]) + [] == Responses(run.entries[..n]);
  }

  lemma {:induction false} ThrownHasUncaught(peer: Peer, run: SessionRun)
    requires RanOut(peer, run) || HandlerThrew(run) || PeerStoppedReading(peer, run)
    requires run.end == Thrown
    ensures run.entries != [] && Uncaught(run.entries[|run.entries| - 1])
  {
  }

  lemma {:induction false} ThrownIff(h: RequestHandler, app: App, peer: Peer)
    ensures var run := SessionOn(h, app, peer); run.end == Thrown <==> exists e <- run.entries :: Uncaught(e)
  {
    var run := SessionOn(h, app, peer);
    SessionRefines(h, app, peer);
    if run.end == Thrown {
      ThrownHasUncaught(peer, run);
    } else if e :| e in run.entries && Uncaught(e) {
      var n: nat :| n < |run.entries| && run.entries[n] == e;
      UncaughtIsLast(peer, run, n);
    }
  }

  /** In a run it is the last call of the last session. */
  lemma {:induction false} UncaughtEndsRun(h: RequestHandler, app: App, peers: seq<Peer>, j: nat, n: nat)
    requires var run := RunOn(h, app, peers);
             j < |run.sessions| && n < |run.sessions[j].entries| && Uncaught(run.sessions[j].entries[n])
    ensures var run := RunOn(h, app, peers);
            && run.outcome == Escaped && j == |run.sessions| - 1 && n == |run.sessions[j].entries| - 1
            && run.sessions[j].output == Frames(Responses(run.sessions[j].entries[..n]))
  {
    var start := SessionOfRun(h, app, peers, j);
    SessionRefines(h, start, peers[j]);
    UncaughtIsLast(peers[j], RunOn(h, app, peers).sessions[j], n);
    RunOutcomes(h, app, peers);
  }

  /** An exception leaves `run` exactly if some call in some session threw one that is not a system error. */
  lemma {:induction false} EscapedIff(h: RequestHandler, app: App, peers: seq<Peer>)
    ensures var run := RunOn(h, app, peers); run.outcome == Escaped <==> exists e <- AllEntries(run.sessions) :: Uncaught(e)
  {
    if peers != [] {
      var session := SessionOn(h, app, peers[0]);
      ThrownIff(h, app, peers[0]);
      if session.end.Completed? {
        var later := RunOn(h, session.app, peers[1..]);
        EscapedIff(h, session.app, peers[1..]);
        assert ([session] + later.sessions)[1..] == later.sessions;
      } else {
        assert AllEntries([session]) == session.entries + AllEntries([]) == session.entries;
      }
    }
  }
}
