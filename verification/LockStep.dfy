/** Consequences of the invariant on one connection: requests and responses keep step. */
module LockStep {
  import opened Wrappers
  import opened Framing
  import opened Handling
  import opened Protocol
  import opened Invariant

  /** What the session took beyond the frames of the requests it handled. */
  ghost function Tail(session: Session): Bytes {
    match session
    case ReadingHeader(got) => got
    case ReadingBody(need, body) => Header(need) + body
    case Writing(_) => []
  }

  /** What the session has yet to write of the responses it computed. */
  function Unwritten(session: Session): Bytes {
    if session.Writing? then session.left else []
  }

  lemma {:induction false} SessionBytes(c: Conn, session: Session)
    requires SessionAt(c, session)
    ensures c.taken == Frames(Requests(c.entries)) + Tail(session)
    ensures c.written + Unwritten(session) == Frames(Responses(c.entries))
  {
    assert c.taken + [] == c.taken && c.written + [] == c.written;
  }

  lemma {:induction false} PrefixTrans<T>(x: seq<T>, y: seq<T>, z: seq<T>)
    requires x <= y <= z
    ensures x <= z
  {
  }

  lemma {:induction false} FullPrefix(all: Bytes, tail: Bytes, taken: Bytes, sent: Bytes)
    requires taken == all + tail && taken <= sent <= all
    ensures tail == [] && taken == sent == all
  {
    assert |all| + |tail| == |taken| <= |sent| <= |all|;
  }

  lemma {:induction false} AllTaken(a: seq<ProtocolMessage>, tail: Bytes, taken: Bytes, sent: Bytes, b: seq<ProtocolMessage>)
    requires taken == Frames(a) + tail && taken <= sent <= Frames(b)
    requires a <= b && |a| == |b|
    ensures tail == [] && taken == sent == Frames(b)
  {
    assert a == b;
    FullPrefix(Frames(b), tail, taken, sent);
  }

  /** Bytes taken from a stream of frames hold only its messages, in order. */
  lemma {:induction false} TakenFrames(a: seq<ProtocolMessage>, tail: Bytes, taken: Bytes, sent: Bytes, b: seq<ProtocolMessage>)
    requires taken == Frames(a) + tail && taken <= sent <= Frames(b)
    ensures a <= b
  {
    PrefixTrans(taken, sent, Frames(b));
    FramesPrefix(a, tail, b);
  }

  /** The server handles only requests the client issued, in order and unaltered; what it handled
      is exactly the complete frames it took, but for one whose handler call is due. */
  lemma {:induction false} HandledAreIssued(capacity: nat, c: Conn, session: Option<Session>, gone: bool)
    requires ConnInv(capacity, c, session, gone)
    ensures Requests(c.entries) <= c.issued
    ensures session.None? || !ReadyToHandle(session.value) ==> SplitFrames(c.taken).frames == Requests(c.entries)
  {
    assert c.taken <= c.sent;
    match c.link {
      case NotAccepted =>
      case Accepted =>
        SessionBytes(c, session.value);
        TakenFrames(Requests(c.entries), Tail(session.value), c.taken, c.sent, c.issued);
        if !ReadyToHandle(session.value) {
          if session.value.ReadingBody? {
            PartialFrame(session.value.need, session.value.body);
          }
          SplitOfFrames(Requests(c.entries), Tail(session.value));
        }
      case Ended =>
        SplitRejoins(c.taken);
        TakenFrames(Requests(c.entries), SplitFrames(c.taken).rest, c.taken, c.sent, c.issued);
    }
  }

  /** With every request sent and taken and no call due, every request has been handled. */
  lemma {:induction false} AllHandled(capacity: nat, c: Conn, session: Session)
    requires c.link.Accepted? && ConnInv(capacity, c, Some(session), false) && !ReadyToHandle(session)
    requires !c.phase.Closed? && Unsent(c.phase) == [] && c.toServer == []
    ensures Requests(c.entries) == c.issued
  {
    HandledAreIssued(capacity, c, Some(session), false);
    assert c.sent + [] == c.sent == c.taken + [] == c.taken;
    WholeStream(c.issued);
  }

  /** A request that is not complete on the wire has not been handled. */
  lemma {:induction false} HandledAreComplete(capacity: nat, c: Conn, session: Option<Session>, gone: bool)
    requires ConnInv(capacity, c, session, gone)
    ensures Requests(c.entries) <= SplitFrames(c.sent).frames
  {
    HandledAreIssued(capacity, c, session, gone);
    SplitAppend(c.taken, c.toServer);
    if c.link.Accepted? && ReadyToHandle(session.value) {
      var requests, body: ProtocolMessage := Requests(c.entries), session.value.body;
      FramesSnoc(requests, body);
      SplitOfFrames(requests + [body], []);
      assert c.taken == Frames(requests + [body]) + [];
    }
  }

  lemma {:induction false} WrittenFrames(c: Conn, session: Option<Session>)
    requires SessionInv(c, session)
    ensures c.written <= Frames(Responses(c.entries))
    ensures c.entries == [] || AllReplied(c.entries[..|c.entries| - 1])
  {
    if c.link.Accepted? {
      SessionBytes(c, session.value);
    }
  }

  lemma {:induction false} ResponsesPosition(log: seq<Entry>, n: nat)
    requires log == [] || AllReplied(log[..|log| - 1])
    requires n < |Responses(log)|
    ensures n < |log| && log[n].outcome == Reply(log[n].outcome.app, Responses(log)[n])
  {
    ResponsesOfReplied(log[..|log| - 1]);
  }

  lemma {:induction false} RepliesPrefix(c: Conn, session: Option<Session>, gone: bool)
    requires ClientInv(c, gone) && SessionInv(c, session) && c.written == c.received + c.toClient
    ensures c.replies <= Responses(c.entries)
  {
    WrittenFrames(c, session);
    PrefixTrans(Frames(c.replies), c.received, c.written);
    PrefixTrans(Frames(c.replies), c.written, Frames(Responses(c.entries)));
    assert Frames(c.replies) + [] == Frames(c.replies);
    FramesPrefix(c.replies, [], Responses(c.entries));
  }

  /** The n-th successful receive returned the handler's response to the n-th request. */
  ghost predicate AnsweredInStep(c: Conn, n: nat) {
    && n < |c.replies| && n < |c.issued| && n < |c.entries|
    && c.entries[n].request == c.issued[n]
    && c.entries[n].outcome.Reply? && c.entries[n].outcome.response == c.replies[n]
  }

  lemma {:induction false} RepliesAreResponses(capacity: nat, c: Conn, session: Option<Session>, gone: bool, n: nat)
    requires ConnInv(capacity, c, session, gone) && n < |c.replies|
    ensures AnsweredInStep(c, n)
  {
    RepliesPrefix(c, session, gone);
    HandledAreIssued(capacity, c, session, gone);
    WrittenFrames(c, session);
    ResponsesPosition(c.entries, n);
    assert Requests(c.entries)[n] == c.issued[n];
  }

  /** The client is in a call, has seen no error, and its session is running. */
  predicate CallRunning(c: Conn) {
    InCall(c.phase) && !c.failed && c.link.Accepted?
  }

  /** The handler has been called for the request of the running call. */
  predicate Handled(c: Conn) {
    |c.entries| == |c.issued|
  }

  /** At most one request is outstanding, and the handler is never ahead of the client. */
  lemma {:induction false} Outstanding(capacity: nat, c: Conn, session: Option<Session>, gone: bool)
    requires ConnInv(capacity, c, session, gone)
    ensures |c.replies| <= |c.entries| <= |c.issued|
    ensures !c.failed ==> |c.issued| <= |c.replies| + 1
    ensures !c.failed && !c.phase.Closed? ==> (InCall(c.phase) <==> |c.issued| == |c.replies| + 1)
  {
    HandledAreIssued(capacity, c, session, gone);
    RepliesPrefix(c, session, gone);
    if c.replies != [] {
      WrittenFrames(c, session);
      ResponsesPosition(c.entries, |c.replies| - 1);
    }
  }

  /** Before the handler call the response channel is empty and the server is reading. */
  lemma {:induction false} BeforeHandling(capacity: nat, c: Conn, session: Session)
    requires ConnInv(capacity, c, Some(session), false) && CallRunning(c) && !Handled(c)
    ensures |c.entries| == |c.replies| && c.toClient == [] && !session.Writing? && !c.phase.AwaitBody?
  {
    Outstanding(capacity, c, Some(session), false);
    RepliesPrefix(c, Some(session), false);
    ResponsesOfReplied(c.entries);
    assert c.replies == Responses(c.entries);
    SessionBytes(c, session);
    assert |c.received + c.toClient + Unwritten(session)| == |Frames(c.replies)|;
  }

  /** After it the request channel is empty, and what is in flight back to the client is exactly
      the rest of the handler's response. */
  lemma {:induction false} AfterHandling(capacity: nat, c: Conn, session: Session)
    requires ConnInv(capacity, c, Some(session), false) && CallRunning(c) && Handled(c)
    ensures c.toServer == [] && !c.phase.Sending?
    ensures session.Writing? || session == ReadingHeader([])
    ensures c.entries != [] && c.entries[|c.entries| - 1].outcome.Reply?
    ensures HeaderSeen(c.phase) + (c.toClient + Unwritten(session))
            == Frame(c.entries[|c.entries| - 1].outcome.response)
  {
    Outstanding(capacity, c, Some(session), false);
    HandledAreIssued(capacity, c, Some(session), false);
    SessionBytes(c, session);
    AllTaken(Requests(c.entries), Tail(session), c.taken, c.sent, c.issued);
    LastResponse(c, session);
    var last := c.entries[|c.entries| - 1].outcome.response;
    FramesSnoc(c.replies, last);
    RestOfResponse(Frames(c.replies), HeaderSeen(c.phase), c.toClient, Unwritten(session), Frame(last));
  }

  lemma {:induction false} LastResponse(c: Conn, session: Session)
    requires ClientInv(c, false) && SessionInv(c, Some(session)) && c.written == c.received + c.toClient
    requires CallRunning(c) && Handled(c)
    ensures c.entries != [] && c.entries[|c.entries| - 1].outcome.Reply?
    ensures Responses(c.entries) == c.replies + [c.entries[|c.entries| - 1].outcome.response]
  {
    RepliesPrefix(c, Some(session), false);
    ResponsesOfReplied(c.entries);
  }

  lemma {:induction false} RestOfResponse(front: Bytes, header: Bytes, flight: Bytes, left: Bytes, frame: Bytes)
    requires front + header + flight + left == front + frame
    ensures header + (flight + left) == frame
  {
    assert front + (header + (flight + left)) == front + header + flight + left;
    Cancel(front, header + (flight + left), frame);
  }
}
