/** What a request handler may do, and what serving a list of requests in order amounts to. */
module Handling {
  import opened Framing

  /** What a C++ call may throw: a system error with one of the codes the server tells apart, or an
      exception that is not a system error. */
  datatype Fault = EndOfFile | BadDescriptor | OtherSystemError | NonSystemException

  type SystemFault = f: Fault | f != NonSystemException witness EndOfFile

  datatype ServerError = NotEnoughBytesReceived | GeneralServerError | GeneralServerSessionError | UnableToSendMessage

  /** How `SyncUnixDomainSession::start` ends: it returns, with or without an error, or an exception
      leaves it. */
  datatype SessionEnd = Completed | Failed(error: ServerError) | Thrown

  /** How `SyncUnixDomainServer::run` ends. */
  datatype RunOutcome = ReturnedSuccess | ReturnedError(error: ServerError) | Escaped

  /** End of file and a bad descriptor are swallowed as a normal disconnect, any other system error
      is returned, and an exception that is not a system error is not caught. */
  function EndOf(fault: Fault): SessionEnd {
    match fault
    case EndOfFile => Completed
    case BadDescriptor => Completed
    case OtherSystemError => Failed(GeneralServerSessionError)
    case NonSystemException => Thrown
  }

  /** The state the application's handlers share; nothing is assumed about it. */
  type App(!new)

  datatype Outcome =
    | Reply(app: App, response: ProtocolMessage)
    | Throws(app: App, fault: Fault)

  /** A terminating handler of raw payloads. */
  type RequestHandler = (App, ProtocolMessage) -> Outcome

  /** One call of the handler. */
  datatype Entry = Entry(request: ProtocolMessage, outcome: Outcome)

  function Requests(log: seq<Entry>): (r: seq<ProtocolMessage>)
    ensures |r| == |log|
    ensures forall k | 0 <= k < |log| :: r[k] == log[k].request
  {
    seq(|log|, k requires 0 <= k < |log| => log[k].request)
  }

  predicate AllReplied(log: seq<Entry>) {
    forall k | 0 <= k < |log| :: log[k].outcome.Reply?
  }

  /** The responses the calls produced, in order. */
  function Responses(log: seq<Entry>): seq<ProtocolMessage> {
    if log == [] then []
    else
      Responses(log[..|log| - 1]) +
      (match log[|log| - 1].outcome case Reply(_, response) => [response] case Throws(_, _) => [])
  }

  /** The application state after handling the requests in order. */
  function AppAfter(h: RequestHandler, app: App, requests: seq<ProtocolMessage>): App {
    if requests == [] then app
    else h(AppAfter(h, app, requests[..|requests| - 1]), requests[|requests| - 1]).app
  }

  /** The reference: one process that handles the requests one after another. */
  function Serve(h: RequestHandler, app: App, requests: seq<ProtocolMessage>): (log: seq<Entry>)
    ensures |log| == |requests|
  {
    if requests == [] then []
    else
      var before, last := requests[..|requests| - 1], requests[|requests| - 1];
      Serve(h, app, before) + [Entry(last, h(AppAfter(h, app, before), last))]
  }

  lemma {:induction false} ResponsesSnoc(log: seq<Entry>, e: Entry)
    ensures Responses(log + [e]) ==
            Responses(log) + (match e.outcome case Reply(_, response) => [response] case Throws(_, _) => [])
  {
    assert (log + [e])[..|log|] == log;
  }

  lemma {:induction false} ResponsesOfReplied(log: seq<Entry>)
    requires AllReplied(log)
    ensures |Responses(log)| == |log|
    ensures forall k | 0 <= k < |log| :: Responses(log)[k] == log[k].outcome.response
  {
    if log != [] {
      ResponsesOfReplied(log[..|log| - 1]);
    }
  }

  /** More calls give at least as many bytes of responses. */
  lemma {:induction false} ResponsesGrow(a: seq<Entry>, b: seq<Entry>)
    requires a <= b
    ensures Frames(Responses(a)) <= Frames(Responses(b))
  {
    if a != b {
      var n := |b| - 1;
      assert a <= b[..n] && b == b[..n] + [b[n]];
      ResponsesGrow(a, b[..n]);
      ResponsesSnoc(b[..n], b[n]);
      FramesConcat(Responses(b[..n]), Responses(b)[|Responses(b[..n])|..]);
    }
  }

  lemma {:induction false} ServeSnoc(h: RequestHandler, app: App, requests: seq<ProtocolMessage>, m: ProtocolMessage)
    ensures AppAfter(h, app, requests + [m]) == h(AppAfter(h, app, requests), m).app
    ensures Serve(h, app, requests + [m]) ==
            Serve(h, app, requests) + [Entry(m, h(AppAfter(h, app, requests), m))]
  {
    assert (requests + [m])[..|requests|] == requests;
  }

  lemma {:induction false} RequestsSnoc(log: seq<Entry>, e: Entry)
    ensures Requests(log + [e]) == Requests(log) + [e.request]
  {
  }

  /** Every entry of the reference is the handler's own answer in the state its predecessors left. */
  lemma {:induction false} ServeAt(h: RequestHandler, app: App, requests: seq<ProtocolMessage>, k: nat)
    requires k < |requests|
    ensures Serve(h, app, requests)[k] ==
            Entry(requests[k], h(AppAfter(h, app, requests[..k]), requests[k]))
  {
    var n := |requests| - 1;
    if k < n {
      ServeAt(h, app, requests[..n], k);
      assert requests[..n][..k] == requests[..k];
    }
  }

  /** Serving a concatenation is serving the first part and going on from the state it leaves. */
  lemma {:induction false} ServeConcat(
    h: RequestHandler, app: App, a: seq<ProtocolMessage>, b: seq<ProtocolMessage>)
    ensures AppAfter(h, app, a + b) == AppAfter(h, AppAfter(h, app, a), b)
    ensures Serve(h, app, a + b) == Serve(h, app, a) + Serve(h, AppAfter(h, app, a), b)
    decreases |b|
  {
    if b == [] {
      assert a + b == a;
    } else {
      var n := |b| - 1;
      assert a + b == (a + b[..n]) + [b[n]];
      assert b == b[..n] + [b[n]];
      ServeConcat(h, app, a, b[..n]);
      ServeSnoc(h, app, a + b[..n], b[n]);
      ServeSnoc(h, AppAfter(h, app, a), b[..n], b[n]);
    }
  }

  lemma {:induction false} RequestsOfServe(h: RequestHandler, app: App, requests: seq<ProtocolMessage>)
    ensures Requests(Serve(h, app, requests)) == requests
  {
    if requests != [] {
      var n := |requests| - 1;
      RequestsOfServe(h, app, requests[..n]);
      RequestsSnoc(Serve(h, app, requests[..n]), Serve(h, app, requests)[n]);
      assert requests == requests[..n] + [requests[n]];
    }
  }

  /** A log served in order splits into logs served in order. */
  lemma {:induction false} ServedParts(h: RequestHandler, app: App, x: seq<Entry>, y: seq<Entry>)
    requires x + y == Serve(h, app, Requests(x + y))
    ensures x == Serve(h, app, Requests(x))
    ensures y == Serve(h, AppAfter(h, app, Requests(x)), Requests(y))
  {
    assert Requests(x + y) == Requests(x) + Requests(y);
    ServeConcat(h, app, Requests(x), Requests(y));
    var a, b := Serve(h, app, Requests(x)), Serve(h, AppAfter(h, app, Requests(x)), Requests(y));
    SameSplit(x, y, a, b);
  }

  lemma {:induction false} SameSplit<T>(x: seq<T>, y: seq<T>, a: seq<T>, b: seq<T>)
    requires x + y == a + b && |x| == |a|
    ensures x == a && y == b
  {
    assert (x + y)[..|x|] == x && (a + b)[..|a|] == a;
    Cancel(x, y, b);
  }

  /** Logs served one after the other make a log served in order. */
  lemma {:induction false} ServedJoin(h: RequestHandler, app: App, x: seq<Entry>, y: seq<Entry>)
    requires x == Serve(h, app, Requests(x))
    requires y == Serve(h, AppAfter(h, app, Requests(x)), Requests(y))
    ensures x + y == Serve(h, app, Requests(x + y))
    ensures AppAfter(h, app, Requests(x + y)) == AppAfter(h, AppAfter(h, app, Requests(x)), Requests(y))
  {
    assert Requests(x + y) == Requests(x) + Requests(y);
    ServeConcat(h, app, Requests(x), Requests(y));
  }
}
