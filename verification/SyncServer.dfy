/** The server's two registries, its built-in reflection handler and its dispatch. */
module SyncServers {
  import opened Wrappers
  import opened Framing
  import opened Handling
  import opened Payload
  import opened Registry
  import opened AcceptLoop
  import UnixDomainServer

  /** What an application's handler does with a message of its request type. */
  datatype Answer = Answered(app: App, message: Message) | Raised(app: App, fault: Fault)

  /** A stored handler with the response type it was registered for. */
  datatype Handler =
    | Reflection
    | ForType(response: Name, run: (App, Message) -> Answer)
  {
    function ResponseName(): Name {
      if Reflection? then REFLECTION_RESPONSE else response
    }

    /** The C++ type of the handler: it returns messages of its response type. */
    ghost predicate Typed(codec: Codec) {
      ForType? ==> forall app, m :: run(app, m).Answered? ==>
        TypeOf(run(app, m).message) == response && codec.WellFormed(run(app, m).message)
    }
  }

  /** The two parallel maps of the server. */
  datatype Maps = Maps(handlers: map<Name, Handler>, pairs: map<Name, Name>)

  /** Both maps hold the same requests, and each handler's recorded response name is its own. */
  ghost predicate Parallel(codec: Codec, maps: Maps) {
    && maps.handlers.Keys == maps.pairs.Keys
    && forall k <- maps.handlers ::
         maps.pairs[k] == maps.handlers[k].ResponseName() && maps.handlers[k].Typed(codec)
  }

  function Register(strategy: Strategy, maps: Maps, r: Registration<Handler>): Maps {
    if Decide(strategy, r.key in maps.handlers).0
    then Maps(maps.handlers[r.key := r.value], maps.pairs[r.key := r.value.ResponseName()])
    else maps
  }

  const BUILT_IN: Registration<Handler> := Registration(REFLECTION_REQUEST, Reflection)

  /** The maps after construction and a sequence of registrations. */
  function RegisterAll(strategy: Strategy, rs: seq<Registration<Handler>>): Maps {
    if rs == [] then Register(strategy, Maps(map[], map[]), BUILT_IN)
    else Register(strategy, RegisterAll(strategy, rs[..|rs| - 1]), rs[|rs| - 1])
  }

  lemma {:induction false} RegisterKeepsParallel(codec: Codec, strategy: Strategy, maps: Maps, r: Registration<Handler>)
    requires Parallel(codec, maps) && r.value.Typed(codec)
    ensures Parallel(codec, Register(strategy, maps, r))
  {
  }

  /** The two maps stay parallel over every sequence of registrations. */
  lemma {:induction false} RegistryInvariant(codec: Codec, strategy: Strategy, rs: seq<Registration<Handler>>)
    requires forall k | 0 <= k < |rs| :: rs[k].value.Typed(codec)
    ensures Parallel(codec, RegisterAll(strategy, rs))
  {
    if rs != [] {
      var n := |rs| - 1;
      RegistryInvariant(codec, strategy, rs[..n]);
      RegisterKeepsParallel(codec, strategy, RegisterAll(strategy, rs[..n]), rs[n]);
    }
  }

  /** The handler map is the fold of the registrations with the built-in one first. */
  lemma {:induction false} RegistryIsFold(strategy: Strategy, rs: seq<Registration<Handler>>)
    ensures RegisterAll(strategy, rs).handlers == PutAll(strategy, [BUILT_IN] + rs)
  {
    if rs == [] {
      assert [BUILT_IN] + rs == [BUILT_IN] && [BUILT_IN][..0] == [];
    } else {
      var n := |rs| - 1;
      RegistryIsFold(strategy, rs[..n]);
      assert ([BUILT_IN] + rs)[..n + 1] == [BUILT_IN] + rs[..n];
    }
  }

  /** The built-in handler stays in place unless a registration of its own request overrides it. */
  lemma {:induction false} ReflectionStays(strategy: Strategy, rs: seq<Registration<Handler>>)
    requires forall k | 0 <= k < |rs| :: rs[k].value.ForType?
    ensures REFLECTION_REQUEST in RegisterAll(strategy, rs).handlers
    ensures RegisterAll(strategy, rs).handlers[REFLECTION_REQUEST] == Reflection
            <==> !(strategy.SilentOverride? && exists k | 0 <= k < |rs| :: rs[k].key == REFLECTION_REQUEST)
  {
    var all := [BUILT_IN] + rs;
    RegistryIsFold(strategy, rs);
    if strategy.SilentOverride? {
      var k := LastWith(all, REFLECTION_REQUEST);
      PutAllIsFold(strategy, all, k);
      if k > 0 {
        assert rs[k - 1] == all[k];
      } else {
        assert forall j | 0 <= j < |rs| :: rs[j] == all[j + 1];
      }
    } else {
      PutAllIsFold(strategy, all, 0);
    }
  }

  lemma {:induction false} LastWith(rs: seq<Registration<Handler>>, key: Name) returns (k: nat)
    requires rs != [] && rs[0].key == key
    ensures k < |rs| && rs[k].key == key
    ensures forall j | k < j < |rs| :: rs[j].key != key
  {
    k := |rs| - 1;
    while rs[k].key != key
      invariant 0 <= k < |rs|
      invariant forall j | k < j < |rs| :: rs[j].key != key
      decreases k
    {
      k := k - 1;
    }
  }

  // Dispatch

  datatype SyncServerError = HandlerNotRegistered | RuntimeError | UnableToDeserializeMessage

  datatype Dispatch = Dispatched(outcome: Outcome) | Rejected(error: SyncServerError)

  /** The stored `GenericHandler`: call, then tag and serialize the response. */
  function Invoke(codec: Codec, pairs: map<Name, Name>, handler: Handler, app: App, m: Message): Outcome {
    match handler
    case Reflection => Reply(app, MakePayload(codec, ReflectionResponse(pairs)))
    case ForType(_, run) =>
      match run(app, m)
      case Answered(later, response) => Reply(later, MakePayload(codec, response))
      case Raised(later, fault) => Throws(later, fault)
  }

  function AcceptMessage(codec: Codec, maps: Maps, app: App, payload: Bytes): Dispatch {
    match ParseDynamic(codec, payload)
    case Err(_) => Rejected(UnableToDeserializeMessage)
    case Ok(m) =>
      if TypeOf(m) !in maps.handlers then Rejected(HandlerNotRegistered)
      else Dispatched(Invoke(codec, maps.pairs, maps.handlers[TypeOf(m)], app, m))
  }

  /** The lambda handed to the transport: a rejected message becomes a `std::runtime_error`. */
  function RequestHandlerOf(codec: Codec, maps: Maps): RequestHandler {
    (app: App, payload: ProtocolMessage) =>
      match AcceptMessage(codec, maps, app, payload)
      case Dispatched(outcome) => outcome
      case Rejected(_) => Throws(app, NonSystemException)
  }

  /** The payload stands for the message: its tag is a known type and its data parses as it to `m`. */
  ghost predicate Encoded(codec: Codec, payload: Bytes, m: Message) {
    exists name, data ::
      && payload == CreatePayload(name, data) && COLON !in name
      && (name == REFLECTION_REQUEST || name == REFLECTION_RESPONSE || name in codec.applicationTypes)
      && codec.parse(name, data) == Some(m)
  }

  lemma {:induction false} EncodedIff(codec: Codec, payload: Bytes, m: Message)
    ensures Encoded(codec, payload, m) <==> ParseDynamic(codec, payload) == Ok(m)
  {
    if Encoded(codec, payload, m) {
      var name, data :| payload == CreatePayload(name, data) && COLON !in name && codec.parse(name, data) == Some(m)
        && (name == REFLECTION_REQUEST || name == REFLECTION_RESPONSE || name in codec.applicationTypes);
      DynamicParse(codec, name, data);
    } else if ParseDynamic(codec, payload) == Ok(m) {
      MalformedIff(codec, REFLECTION_REQUEST, payload);
      var name, data :| COLON !in name && payload == CreatePayload(name, data);
      DynamicParse(codec, name, data);
    }
  }

  /** For every payload: it is undecodable exactly if it stands for no message, it has no handler exactly
      if it stands for a message of a type without one, and otherwise it is dispatched. */
  lemma {:induction false} DispatchIff(codec: Codec, maps: Maps, app: App, payload: Bytes)
    ensures AcceptMessage(codec, maps, app, payload) == Rejected(UnableToDeserializeMessage)
            <==> !exists m :: Encoded(codec, payload, m)
    ensures AcceptMessage(codec, maps, app, payload) == Rejected(HandlerNotRegistered)
            <==> exists m :: Encoded(codec, payload, m) && TypeOf(m) !in maps.handlers
    ensures AcceptMessage(codec, maps, app, payload).Dispatched?
            <==> exists m :: Encoded(codec, payload, m) && TypeOf(m) in maps.handlers
    ensures COLON !in payload ==> AcceptMessage(codec, maps, app, payload) == Rejected(UnableToDeserializeMessage)
  {
    MalformedIff(codec, REFLECTION_REQUEST, payload);
    forall m ensures Encoded(codec, payload, m) <==> ParseDynamic(codec, payload) == Ok(m) {
      EncodedIff(codec, payload, m);
    }
    if ParseDynamic(codec, payload).Ok? {
      assert Encoded(codec, payload, ParseDynamic(codec, payload).value);
    }
  }

  /** What a registered handler did is what the call amounts to: its answer tagged and serialized, or its
      own exception, and in either case the state it left. The built-in one answers with the server's
      pairs and leaves the state alone. */
  ghost predicate CallIs(codec: Codec, maps: Maps, app: App, m: Message, outcome: Outcome) {
    && TypeOf(m) in maps.handlers
    && match maps.handlers[TypeOf(m)]
       case Reflection => outcome.Reply? && outcome.app == app && outcome.response == MakePayload(codec, ReflectionResponse(maps.pairs))
       case ForType(_, run) =>
         && outcome.app == run(app, m).app
         && (outcome.Throws? <==> run(app, m).Raised?)
         && (outcome.Throws? ==> outcome.fault == run(app, m).fault)
         && (outcome.Reply? ==> outcome.response == MakePayload(codec, run(app, m).message))
  }

  /** The transport's handler on every payload: the registered handler's call if it stands for a message
      that has one, and otherwise an exception that leaves the state alone. */
  lemma {:induction false} HandlerIsCalled(codec: Codec, maps: Maps, app: App, payload: ProtocolMessage)
    ensures var outcome := RequestHandlerOf(codec, maps)(app, payload);
            (exists m :: Encoded(codec, payload, m) && CallIs(codec, maps, app, m, outcome))
            || ((forall m :: Encoded(codec, payload, m) ==> TypeOf(m) !in maps.handlers)
                && outcome == Throws(app, NonSystemException))
  {
    DispatchIff(codec, maps, app, payload);
    if AcceptMessage(codec, maps, app, payload).Dispatched? {
      var m := ParseDynamic(codec, payload).value;
      EncodedIff(codec, payload, m);
      assert CallIs(codec, maps, app, m, RequestHandlerOf(codec, maps)(app, payload));
    }
  }

  /** Every response is a well-formed message of the type recorded for the request. */
  lemma {:induction false} ResponsesAreTagged(codec: Codec, maps: Maps, app: App, m: Message)
    requires codec.Lawful() && Parallel(codec, maps) && codec.Encodes(m) && TypeOf(m) in maps.handlers
    ensures AcceptMessage(codec, maps, app, MakePayload(codec, m)).Dispatched?
    ensures var outcome := RequestHandlerOf(codec, maps)(app, MakePayload(codec, m));
            outcome.Reply? ==>
              exists response ::
                && codec.WellFormed(response) && TypeOf(response) == maps.pairs[TypeOf(m)]
                && outcome.response == MakePayload(codec, response)
                && (codec.Encodes(response) ==>
                      ParseTyped(codec, maps.pairs[TypeOf(m)], outcome.response) == Ok(response))
  {
    PayloadRoundTrip(codec, m);
    var handler := maps.handlers[TypeOf(m)];
    match handler {
      case Reflection =>
        PayloadRoundTrip(codec, ReflectionResponse(maps.pairs));
      case ForType(_, run) =>
        if run(app, m).Answered? {
          PayloadRoundTrip(codec, run(app, m).message);
        }
    }
  }

  /** Wherever in a run a request comes up that stands for no message, or for one whose type has no
      handler, it is the last one ever handled: it is answered with nothing, though everything before it
      was, and its exception leaves the session and then `run`. */
  lemma {:induction false} RejectedEscapes(
    codec: Codec, maps: Maps, app: App, peers: seq<UnixDomainServer.Peer>, j: nat, n: nat)
    requires var run := RunOn(RequestHandlerOf(codec, maps), app, peers);
             && j < |run.sessions| && n < |run.sessions[j].entries|
             && forall m :: Encoded(codec, run.sessions[j].entries[n].request, m) ==> TypeOf(m) !in maps.handlers
    ensures var run := RunOn(RequestHandlerOf(codec, maps), app, peers);
            && run.outcome == Escaped && j == |run.sessions| - 1 && n == |run.sessions[j].entries| - 1
            && run.sessions[j].output == Frames(Responses(run.sessions[j].entries[..n]))
  {
    var h := RequestHandlerOf(codec, maps);
    var start := SessionOfRun(h, app, peers, j);
    UnixDomainServer.SessionCalls(h, start, peers[j]);
    RejectedThrows(codec, maps, start, RunOn(h, app, peers).sessions[j].entries, n);
    UncaughtEndsRun(h, app, peers, j, n);
  }

  lemma {:induction false} RejectedThrows(codec: Codec, maps: Maps, app: App, log: seq<Entry>, n: nat)
    requires log == Serve(RequestHandlerOf(codec, maps), app, Requests(log)) && n < |log|
    requires forall m :: Encoded(codec, log[n].request, m) ==> TypeOf(m) !in maps.handlers
    ensures Uncaught(log[n])
  {
    var h, requests := RequestHandlerOf(codec, maps), Requests(log);
    ServeAt(h, app, requests, n);
    HandlerIsCalled(codec, maps, AppAfter(h, app, requests[..n]), requests[n]);
  }

  // Runs as folds of the registered handlers

  /** The state after one request: that of the handler registered for it, if any. */
  function StateNext(codec: Codec, handlers: map<Name, Handler>, app: App, payload: Bytes): App {
    match ParseDynamic(codec, payload)
    case Err(_) => app
    case Ok(m) => if TypeOf(m) in handlers && handlers[TypeOf(m)].ForType? then handlers[TypeOf(m)].run(app, m).app else app
  }

  /** The state after a sequence of requests. */
  function StateAfter(codec: Codec, handlers: map<Name, Handler>, app: App, payloads: seq<ProtocolMessage>): App {
    if payloads == [] then app
    else
      var n := |payloads| - 1;
      StateNext(codec, handlers, StateAfter(codec, handlers, app, payloads[..n]), payloads[n])
  }

  /** The request has no handler, or its handler raises an exception that is not a system error. */
  predicate Fatal(codec: Codec, handlers: map<Name, Handler>, app: App, payload: Bytes) {
    match ParseDynamic(codec, payload)
    case Err(_) => true
    case Ok(m) =>
      || TypeOf(m) !in handlers
      || (handlers[TypeOf(m)].ForType? && handlers[TypeOf(m)].run(app, m).Raised?
          && handlers[TypeOf(m)].run(app, m).fault == NonSystemException)
  }

  lemma {:induction false} CallStep(codec: Codec, maps: Maps, app: App, payload: ProtocolMessage)
    ensures var outcome := RequestHandlerOf(codec, maps)(app, payload);
            && outcome.app == StateNext(codec, maps.handlers, app, payload)
            && (outcome.Throws? && outcome.fault == NonSystemException <==> Fatal(codec, maps.handlers, app, payload))
  {
    HandlerIsCalled(codec, maps, app, payload);
    forall m ensures Encoded(codec, payload, m) <==> ParseDynamic(codec, payload) == Ok(m) {
      EncodedIff(codec, payload, m);
    }
  }

  /** Serving requests is folding the registered handlers over them. */
  lemma {:induction false} ServingIsFold(codec: Codec, maps: Maps, app: App, payloads: seq<ProtocolMessage>)
    ensures AppAfter(RequestHandlerOf(codec, maps), app, payloads) == StateAfter(codec, maps.handlers, app, payloads)
  {
    if payloads != [] {
      var n := |payloads| - 1;
      ServingIsFold(codec, maps, app, payloads[..n]);
      CallStep(codec, maps, StateAfter(codec, maps.handlers, app, payloads[..n]), payloads[n]);
    }
  }

  /** Every run of the server folds the registered handlers over all the requests it takes up: the state
      it leaves is theirs, and it ends with an exception exactly if one of the requests was fatal in the
      state that the ones before it had left. */
  lemma {:induction false} RunIsFold(codec: Codec, maps: Maps, app: App, peers: seq<UnixDomainServer.Peer>)
    ensures var run := RunOn(RequestHandlerOf(codec, maps), app, peers);
            var requests := Requests(AllEntries(run.sessions));
            && run.app == StateAfter(codec, maps.handlers, app, requests)
            && (run.outcome == Escaped <==>
                exists k | 0 <= k < |requests| ::
                  Fatal(codec, maps.handlers, StateAfter(codec, maps.handlers, app, requests[..k]), requests[k]))
  {
    var h := RequestHandlerOf(codec, maps);
    var log := AllEntries(RunOn(h, app, peers).sessions);
    var requests := Requests(log);
    RunServesInOrder(h, app, peers);
    EscapedIff(h, app, peers);
    ServingIsFold(codec, maps, app, requests);
    forall k: nat | k < |requests|
      ensures Uncaught(log[k])
              <==> Fatal(codec, maps.handlers, StateAfter(codec, maps.handlers, app, requests[..k]), requests[k])
    {
      ServeAt(h, app, requests, k);
      ServingIsFold(codec, maps, app, requests[..k]);
      CallStep(codec, maps, StateAfter(codec, maps.handlers, app, requests[..k]), requests[k]);
    }
    if e :| e in log && Uncaught(e) {
      var k: nat :| k < |log| && log[k] == e;
      assert Fatal(codec, maps.handlers, StateAfter(codec, maps.handlers, app, requests[..k]), requests[k]);
    }
  }

  class SyncServer {
    const codec: Codec
    const strategy: Strategy
    var handlers: map<Name, Handler>
    var pairs: map<Name, Name>

    constructor (codec: Codec, strategy: Strategy)
      ensures this.codec == codec && this.strategy == strategy
      ensures Maps(handlers, pairs) == RegisterAll(strategy, [])
    {
      this.codec, this.strategy, this.handlers, this.pairs := codec, strategy, map[], map[];
      new;
      var _ := RegisterHandler(REFLECTION_REQUEST, Reflection);
    }

    method RegisterHandler(request: Name, handler: Handler) returns (r: Registered)
      modifies this
      ensures Maps(handlers, pairs) == Register(strategy, Maps(old(handlers), old(pairs)), Registration(request, handler))
      ensures r == Decide(strategy, request in old(handlers)).1
    {
      if request in handlers {
        r := RegisterDuplicate(request, handler);
      } else {
        RegisterValidated(request, handler);
        r := Returned(true);
      }
    }

    method RegisterDuplicate(request: Name, handler: Handler) returns (r: Registered)
      modifies this
      ensures r == OnDuplicate(strategy).1
      ensures OnDuplicate(strategy).0 ==>
                handlers == old(handlers)[request := handler] && pairs == old(pairs)[request := handler.ResponseName()]
      ensures !OnDuplicate(strategy).0 ==> handlers == old(handlers) && pairs == old(pairs)
    {
      match strategy {
        case SilentOverride =>
          RegisterValidated(request, handler);
          r := Returned(true);
        case SilentIgnore => r := Returned(true);
        case IndicateIgnore => r := Returned(false);
        case Throw => r := InvalidArgument;
      }
    }

    method RegisterValidated(request: Name, handler: Handler)
      modifies this
      ensures handlers == old(handlers)[request := handler]
      ensures pairs == old(pairs)[request := handler.ResponseName()]
    {
      handlers := handlers[request := handler];
      pairs := pairs[request := handler.ResponseName()];
    }

    /** The built-in handler copies the whole map of pairs, in whatever order it is iterated. */
    method Reflect() returns (response: Message)
      ensures response == ReflectionResponse(pairs)
      ensures forall app, m :: Invoke(codec, pairs, Reflection, app, m) == Reply(app, MakePayload(codec, response))
    {
      var mappings: map<Name, Name>, todo := map[], pairs.Keys;
      while todo != {}
        invariant todo <= pairs.Keys && mappings.Keys == pairs.Keys - todo
        invariant forall k <- mappings :: mappings[k] == pairs[k]
        decreases |todo|
      {
        var k :| k in todo;
        mappings, todo := mappings[k := pairs[k]], todo - {k};
      }
      response := ReflectionResponse(mappings);
    }

    /** Runs the accept loop on the connections clients will make. An exception that `run` does not
        catch is reported as `None`. */
    method Start(app: App, backlog: seq<Connection>)
      returns (r: Option<Result<(), SyncServerError>>, delivered: seq<Bytes>)
      ensures var run := RunOn(RequestHandlerOf(codec, Maps(handlers, pairs)), app, PeersOf(backlog));
              && r == (if run.outcome.Escaped? then None else Some(Err(RuntimeError)))
              && |delivered| == |run.sessions|
              && forall j | 0 <= j < |delivered| :: delivered[j] == run.sessions[j].output
    {
      var server := new SyncUnixDomainServer(RequestHandlerOf(codec, Maps(handlers, pairs)), app, backlog);
      var outcome, sessions := server.Run();
      delivered := server.delivered;
      match outcome {
        case ReturnedSuccess => r := Some(Ok(()));
        case ReturnedError(_) => r := Some(Err(RuntimeError));
        case Escaped => r := None;
      }
    }
  }
}
