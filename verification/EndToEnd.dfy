/** Codec, registries, dispatch and the byte protocol together: a client that reflected the server's
    map and validates against it never meets a missing handler or a wrongly typed response. */
module EndToEnd {
  import opened Wrappers
  import opened Handling
  import opened Payload
  import opened Registry
  import opened SyncServers
  import opened SyncClients
  import opened Protocol
  import opened Invariant
  import opened LockStep
  import opened Serialisation

  /** A server after any typed registrations, whose built-in reflection handler was not overridden and
      whose map of pairs is not too large to serialize. */
  datatype Setup = Setup(codec: Codec, strategy: Strategy, registrations: seq<Registration<Handler>>) {
    function Maps(): Maps {
      RegisterAll(strategy, registrations)
    }

    ghost predicate Sound() {
      && codec.Lawful() && codec.Encodes(ReflectionResponse(Maps().pairs))
      && (forall k | 0 <= k < |registrations| :: registrations[k].value.ForType? && registrations[k].value.Typed(codec))
      && !(strategy.SilentOverride? && exists k | 0 <= k < |registrations| :: registrations[k].key == REFLECTION_REQUEST)
    }

    /** Any number of clients and any channels, around this server. */
    ghost predicate Runs(cfg: Config) {
      cfg.handler == RequestHandlerOf(codec, Maps())
    }
  }

  /** The laws asked of a codec can be met for any application types, any registrations and any message. */
  lemma {:induction false} SoundSetupsExist(
    names: set<Name>, strategy: Strategy, registrations: seq<Registration<Handler>>, m: Message)
    returns (codec: Codec)
    requires REFLECTION_REQUEST !in names && REFLECTION_RESPONSE !in names && forall n <- names :: COLON !in n
    requires forall k | 0 <= k < |registrations| :: registrations[k].value.ForType?
    requires forall k, app, x | 0 <= k < |registrations| && registrations[k].value.run(app, x).Answered? ::
               var answer := registrations[k].value.run(app, x).message;
               TypeOf(answer) == registrations[k].value.response && (answer.Application? ==> answer.typeName in names)
    requires !(strategy.SilentOverride? && exists k | 0 <= k < |registrations| :: registrations[k].key == REFLECTION_REQUEST)
    requires m.Application? && m.typeName in names
    ensures Setup(codec, strategy, registrations).Sound() && codec.applicationTypes == names && codec.Encodes(m)
  {
    codec := CodecFor(names, ReflectionResponse(RegisterAll(strategy, registrations).pairs), m);
    SmallCodec(names, ReflectionResponse(RegisterAll(strategy, registrations).pairs), m);
  }

  /** A codec that can serialize just the messages named, each as empty data. */
  function CodecFor(names: set<Name>, pairs: Message, m: Message): Codec {
    Codec(
      names,
      x => if x == ReflectionRequest || x == pairs || x == m then Some([]) else None,
      (name, data) =>
        if data != [] then None
        else if name == REFLECTION_REQUEST then Some(ReflectionRequest)
        else if name == REFLECTION_RESPONSE then Some(pairs)
        else if name == TypeOf(m) then Some(m)
        else None)
  }

  lemma {:induction false} SmallCodec(names: set<Name>, pairs: Message, m: Message)
    requires REFLECTION_REQUEST !in names && REFLECTION_RESPONSE !in names && forall n <- names :: COLON !in n
    requires pairs.ReflectionResponse? && m.Application? && m.typeName in names
    ensures CodecFor(names, pairs, m).Lawful()
  {
    BuiltInNames();
  }

  lemma {:induction false} SetupMaps(setup: Setup)
    requires setup.Sound()
    ensures Parallel(setup.codec, setup.Maps())
    ensures REFLECTION_REQUEST in setup.Maps().handlers && setup.Maps().handlers[REFLECTION_REQUEST] == Reflection
    ensures map[] + REFLECTION_PAIR + setup.Maps().pairs == setup.Maps().pairs
  {
    RegistryInvariant(setup.codec, setup.strategy, setup.registrations);
    ReflectionStays(setup.strategy, setup.registrations);
  }

  /** The calls of one session lie side by side in the global log. */
  lemma {:induction false} ConcatenatedAt(order: seq<nat>, conns: seq<Conn>, j: nat, n: nat) returns (p: nat)
    requires forall k | 0 <= k < |order| :: order[k] < |conns|
    requires j < |order| && n < |conns[order[j]].entries|
    ensures p < |Concatenated(order, conns)| && Concatenated(order, conns)[p] == conns[order[j]].entries[n]
    decreases |order|
  {
    var last := |order| - 1;
    if j == last {
      p := |Concatenated(order[..last], conns)| + n;
    } else {
      p := ConcatenatedAt(order[..last], conns, j, n);
    }
  }

  /** The state of the application when call `p` of the global log is made: what the registered handlers
      left that were called before it. */
  function StateAt(setup: Setup, cfg: Config, s: State, p: nat): App
    requires p <= |s.log|
  {
    StateAfter(setup.codec, setup.Maps().handlers, cfg.app, Requests(s.log[..p]))
  }

  /** Each handler call of a session is one of the global log, made in the state the earlier ones left. */
  lemma {:induction false} EntryOutcome(setup: Setup, cfg: Config, s: State, i: nat, n: nat) returns (p: nat)
    requires setup.Runs(cfg) && Reachable(cfg, s) && i < |s.conns| && n < |s.conns[i].entries|
    ensures p < |s.log| && s.log[p] == s.conns[i].entries[n]
    ensures s.log[p].outcome == cfg.handler(StateAt(setup, cfg, s, p), s.log[p].request)
  {
    p := EntryInLog(cfg, s, i, n);
    LogOutcome(cfg.handler, cfg.app, s.log, p);
    ServingIsFold(setup.codec, setup.Maps(), cfg.app, Requests(s.log[..p]));
  }

  lemma {:induction false} EntryInLog(cfg: Config, s: State, i: nat, n: nat) returns (p: nat)
    requires Reachable(cfg, s) && i < |s.conns| && n < |s.conns[i].entries|
    ensures p < |s.log| && s.log[p] == s.conns[i].entries[n]
    ensures s.log == Serve(cfg.handler, cfg.app, Requests(s.log))
  {
    ReachableInv(cfg, s);
    assert ConnAt(cfg, s, i);
    var j: nat :| j < |s.order| && s.order[j] == i;
    p := ConcatenatedAt(s.order, s.conns, j, n);
  }

  lemma {:induction false} LogOutcome(h: RequestHandler, app: App, log: seq<Entry>, p: nat)
    requires log == Serve(h, app, Requests(log)) && p < |log|
    ensures log[p].outcome == h(AppAfter(h, app, Requests(log[..p])), log[p].request)
  {
    ServeAt(h, app, Requests(log), p);
    assert Requests(log)[..p] == Requests(log[..p]);
  }

  /** The reply to a reflection request, if it arrives, is the server's whole map of pairs. */
  lemma {:induction false} ReflectionIsFaithful(setup: Setup, cfg: Config, s: State, i: nat, n: nat)
    requires setup.Sound() && setup.Runs(cfg) && Reachable(cfg, s)
    requires i < |s.conns| && n < |s.conns[i].replies|
    requires n < |s.conns[i].issued| && s.conns[i].issued[n] == MakePayload(setup.codec, ReflectionRequest)
    ensures ParseTyped(setup.codec, REFLECTION_RESPONSE, s.conns[i].replies[n])
            == Ok(ReflectionResponse(setup.Maps().pairs))
  {
    SetupMaps(setup);
    LockStepHolds(cfg, s, i);
    assert AnsweredInStep(s.conns[i], n);
    var _ := EntryOutcome(setup, cfg, s, i, n);
    PayloadRoundTrip(setup.codec, ReflectionRequest);
    PayloadRoundTrip(setup.codec, ReflectionResponse(setup.Maps().pairs));
  }

  /** What became of a request `m`: the handler of its type was called on it, or, if it could not be
      serialized, perhaps on what empty data stands for; only such a request can be undecodable, and none
      is without a handler. */
  ghost predicate DispatchedAs(setup: Setup, app: App, m: Message, outcome: Outcome) {
    var payload := MakePayload(setup.codec, m);
    match ParseDynamic(setup.codec, payload)
    case Ok(x) =>
      && TypeOf(x) == TypeOf(m) && (setup.codec.Encodes(m) ==> x == m)
      && AcceptMessage(setup.codec, setup.Maps(), app, payload) == Dispatched(outcome)
      && CallIs(setup.codec, setup.Maps(), app, x, outcome)
    case Err(_) =>
      && !setup.codec.Encodes(m) && outcome == Throws(app, NonSystemException)
      && AcceptMessage(setup.codec, setup.Maps(), app, payload) == Rejected(UnableToDeserializeMessage)
  }

  /** A request of a registered type always reaches the handler of its type, in the state that the handlers
      called before it left. */
  lemma {:induction false} KnownRequestIsHandled(setup: Setup, cfg: Config, s: State, i: nat, n: nat, m: Message)
    returns (p: nat)
    requires setup.Sound() && setup.Runs(cfg) && Reachable(cfg, s)
    requires i < |s.conns| && n < |s.conns[i].entries|
    requires s.conns[i].entries[n].request == MakePayload(setup.codec, m)
    requires setup.codec.WellFormed(m) && TypeOf(m) in setup.Maps().pairs
    ensures p < |s.log| && s.log[p] == s.conns[i].entries[n]
    ensures DispatchedAs(setup, StateAt(setup, cfg, s, p), m, s.conns[i].entries[n].outcome)
    ensures AcceptMessage(setup.codec, setup.Maps(), StateAt(setup, cfg, s, p), MakePayload(setup.codec, m))
            != Rejected(HandlerNotRegistered)
  {
    SetupMaps(setup);
    p := EntryOutcome(setup, cfg, s, i, n);
    ParsesAsItsType(setup.codec, m);
  }

  /** A parsed response to `m` is never of the wrong type, and is the very message its handler answered. */
  ghost predicate ParsesAsAnswered(setup: Setup, app: App, m: Message, parsed: Result<Message, ParseError>)
    requires TypeOf(m) in setup.Maps().handlers
  {
    && parsed != Err(TypeMismatch) && parsed != Err(InvalidFormat)
    && match setup.Maps().handlers[TypeOf(m)]
       case Reflection => parsed == Ok(ReflectionResponse(setup.Maps().pairs))
       case ForType(response, run) =>
         && run(app, m).Answered? && TypeOf(run(app, m).message) == response
         && (setup.codec.Encodes(run(app, m).message) ==> parsed == Ok(run(app, m).message))
  }

  /** End-to-end type safety. The client's first call reflects from an empty map; `learned` is its map
      afterwards. Every later request that passes validation and that the server takes up, answered or
      not, reaches the handler of its type; and a successful receive is a payload of the type the client
      asked for that parses to exactly the message the handler answered, unless that message could not be
      serialized. */
  lemma {:induction false} ValidatedRequestsAreTyped(
    setup: Setup, cfg: Config, s: State, i: nat, n: nat, learned: Pairs, mappings: Pairs, m: Message, response: Name)
    returns (p: nat)
    requires setup.Sound() && setup.Runs(cfg) && Reachable(cfg, s) && i < |s.conns|
    requires 0 < n < |s.conns[i].entries| && n < |s.conns[i].issued| && s.conns[i].replies != []
    requires s.conns[i].issued[0] == MakePayload(setup.codec, ReflectionRequest)
    requires ParseTyped(setup.codec, REFLECTION_RESPONSE, s.conns[i].replies[0]) == Ok(ReflectionResponse(mappings))
    requires learned == map[] + REFLECTION_PAIR + mappings
    requires Valid(ServerReflection, learned, TypeOf(m), response)
    requires setup.codec.WellFormed(m) && s.conns[i].issued[n] == MakePayload(setup.codec, m)
    ensures learned == setup.Maps().pairs
    ensures p < |s.log| && s.log[p] == s.conns[i].entries[n]
    ensures AcceptMessage(setup.codec, setup.Maps(), StateAt(setup, cfg, s, p), MakePayload(setup.codec, m))
            != Rejected(HandlerNotRegistered)
    ensures DispatchedAs(setup, StateAt(setup, cfg, s, p), m, s.conns[i].entries[n].outcome)
    ensures n < |s.conns[i].replies| ==>
              var x := ParseDynamic(setup.codec, MakePayload(setup.codec, m));
              x.Ok? && TypeOf(x.value) in setup.Maps().handlers
              && ParsesAsAnswered(setup, StateAt(setup, cfg, s, p), x.value, ParseTyped(setup.codec, response, s.conns[i].replies[n]))
  {
    SetupMaps(setup);
    ReflectionIsFaithful(setup, cfg, s, i, 0);
    EntriesAreIssued(cfg, s, i, n);
    p := KnownRequestIsHandled(setup, cfg, s, i, n, m);
    if n < |s.conns[i].replies| {
      LockStepHolds(cfg, s, i);
      assert AnsweredInStep(s.conns[i], n);
      HandledParses(setup, StateAt(setup, cfg, s, p), ParseDynamic(setup.codec, MakePayload(setup.codec, m)).value,
                    s.conns[i].entries[n].outcome);
    }
  }

  lemma {:induction false} EntriesAreIssued(cfg: Config, s: State, i: nat, n: nat)
    requires Reachable(cfg, s) && i < |s.conns| && n < |s.conns[i].entries|
    ensures n < |s.conns[i].issued| && s.conns[i].entries[n].request == s.conns[i].issued[n]
  {
    ReachableInv(cfg, s);
    assert ConnAt(cfg, s, i);
    HandledAreIssued(cfg.capacity, s.conns[i], SessionOf(s, i), Gone(s, i));
    assert Requests(s.conns[i].entries)[n] == s.conns[i].issued[n];
  }

  /** A response of the handler registered for the request parses as its recorded type. */
  lemma {:induction false} HandledParses(setup: Setup, app: App, m: Message, outcome: Outcome)
    requires setup.Sound() && CallIs(setup.codec, setup.Maps(), app, m, outcome) && outcome.Reply?
    ensures TypeOf(m) in setup.Maps().pairs
    ensures ParsesAsAnswered(setup, app, m, ParseTyped(setup.codec, setup.Maps().pairs[TypeOf(m)], outcome.response))
  {
    SetupMaps(setup);
    var answer := match setup.Maps().handlers[TypeOf(m)]
                  case Reflection => ReflectionResponse(setup.Maps().pairs)
                  case ForType(_, run) => run(app, m).message;
    PayloadRoundTrip(setup.codec, answer);
    WrongTypeIsMismatch(setup.codec, answer, TypeOf(answer));
  }

  /** A handler that answers every request with the same message. */
  function Always(answer: Message): Handler {
    ForType(TypeOf(answer), (a: App, _: Message) => Answered(a, answer))
  }

  /** The guard is needed: whatever else is registered, a last override of the built-in handler may answer
      with pairs the server does not have, and a request validated against them then finds no handler. */
  lemma {:induction false} OverriddenReflectionMisleads(
    codec: Codec, registrations: seq<Registration<Handler>>, k: nat, m: Message, response: Name, app: App)
    requires codec.Lawful() && codec.Encodes(m) && m.Application?
    requires codec.Encodes(ReflectionResponse(map[TypeOf(m) := response]))
    requires k < |registrations| && forall j | k < j < |registrations| :: registrations[j].key != REFLECTION_REQUEST
    requires registrations[k] == Registration(REFLECTION_REQUEST, Always(ReflectionResponse(map[TypeOf(m) := response])))
    requires forall j | 0 <= j < |registrations| :: registrations[j].key != TypeOf(m)
    ensures var lie := ReflectionResponse(map[TypeOf(m) := response]);
            var setup := Setup(codec, SilentOverride, registrations);
            var reply := RequestHandlerOf(codec, setup.Maps())(app, MakePayload(codec, ReflectionRequest));
            && Always(lie).Typed(codec) && !setup.Sound()
            && reply.Reply? && ParseTyped(codec, REFLECTION_RESPONSE, reply.response) == Ok(lie)
            && Valid(ServerReflection, map[] + REFLECTION_PAIR + lie.mappings, TypeOf(m), response)
            && AcceptMessage(codec, setup.Maps(), app, MakePayload(codec, m)) == Rejected(HandlerNotRegistered)
  {
    var lie := ReflectionResponse(map[TypeOf(m) := response]);
    OverrideStays(registrations, k, TypeOf(m));
    PayloadRoundTrip(codec, ReflectionRequest);
    PayloadRoundTrip(codec, lie);
    PayloadRoundTrip(codec, m);
  }

  lemma {:induction false} OverrideStays(registrations: seq<Registration<Handler>>, k: nat, name: Name)
    requires k < |registrations| && forall j | k < j < |registrations| :: registrations[j].key != registrations[k].key
    requires name != REFLECTION_REQUEST && forall j | 0 <= j < |registrations| :: registrations[j].key != name
    ensures var handlers := RegisterAll(SilentOverride, registrations).handlers;
            && registrations[k].key in handlers && handlers[registrations[k].key] == registrations[k].value
            && name !in handlers
  {
    var all := [BUILT_IN] + registrations;
    RegistryIsFold(SilentOverride, registrations);
    assert all[k + 1] == registrations[k];
    PutAllIsFold(SilentOverride, all, k + 1);
    PutAllKeys(SilentOverride, all, name);
  }
}
