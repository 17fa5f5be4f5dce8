/** The client: its registry of expected pairs, the validated request, and reflection on connect. */
module SyncClients {
  import opened Wrappers
  import opened Framing
  import opened Payload
  import opened Registry
  import opened Sockets
  import opened UnixDomainClient

  datatype Validation = NoValidation | ManualRegistration | ServerReflection

  datatype SyncClientError =
    | BadRequestToResponsePair
    | UnableToReflectMappings
    | UnableToConnectToServer
    | UnableToSendMessage
    | UnableToReceiveMessage
    | UnableToParseReturnedProto

  type Pairs = map<Name, Name>

  /** Under `ServerReflection` the duplicate strategy has no say: the last registration wins. */
  function Effective(validation: Validation, strategy: Strategy): Strategy {
    if validation.ServerReflection? then SilentOverride else strategy
  }

  /** The request may be sent: validation is off, or the pair is the registered one. */
  predicate Valid(validation: Validation, pairs: Pairs, request: Name, response: Name) {
    validation.NoValidation? || (request in pairs && pairs[request] == response)
  }

  /** The registration that decides what a client holds under its key: the last one if the server's map
      overrides everything or the strategy says so, and the first one otherwise. */
  ghost predicate Decides(validation: Validation, strategy: Strategy, rs: seq<Registration<Name>>, k: nat) {
    && k < |rs|
    && if validation == ServerReflection || strategy == SilentOverride then forall j | k < j < |rs| :: rs[j].key != rs[k].key
       else forall j | 0 <= j < k :: rs[j].key != rs[k].key
  }

  /** A client's registry is a fold of its registrations. */
  lemma {:induction false} ClientRegistryIsFold(
    validation: Validation, strategy: Strategy, rs: seq<Registration<Name>>, request: Name, response: Name)
    ensures var pairs := PutAll(Effective(validation, strategy), rs);
            request in pairs && pairs[request] == response
            <==> exists k: nat :: Decides(validation, strategy, rs, k) && rs[k] == Registration(request, response)
  {
    var effective := Effective(validation, strategy);
    var pairs := PutAll(effective, rs);
    forall k: nat | Decides(validation, strategy, rs, k) && rs[k].key == request
      ensures request in pairs && pairs[request] == rs[k].value
    {
      PutAllIsFold(effective, rs, k);
    }
    if request in pairs {
      PutAllKeys(effective, rs, request);
      var k := DecidingOne(validation, strategy, rs, request);
    }
  }

  /** A key that was registered has a deciding registration. */
  lemma {:induction false} DecidingOne(validation: Validation, strategy: Strategy, rs: seq<Registration<Name>>, key: Name)
    returns (k: nat)
    requires exists j | 0 <= j < |rs| :: rs[j].key == key
    ensures Decides(validation, strategy, rs, k) && rs[k].key == key
  {
    if validation == ServerReflection || strategy == SilentOverride {
      k := |rs| - 1;
      while rs[k].key != key
        invariant 0 <= k < |rs| && forall j | k < j < |rs| :: rs[j].key != key
        decreases k
      {
        k := k - 1;
      }
    } else {
      k := 0;
      while rs[k].key != key
        invariant 0 <= k < |rs| && forall j | 0 <= j < k :: rs[j].key != key
        decreases |rs| - k
      {
        k := k + 1;
      }
    }
  }

  /** What a client without reflection may send: anything if it does not validate, and otherwise exactly
      the pairs that its deciding registrations name. */
  lemma {:induction false} ManualValidation(strategy: Strategy, rs: seq<Registration<Name>>, request: Name, response: Name)
    ensures Valid(NoValidation, PutAll(Effective(NoValidation, strategy), rs), request, response)
    ensures Valid(ManualRegistration, PutAll(Effective(ManualRegistration, strategy), rs), request, response)
            <==> exists k: nat :: Decides(ManualRegistration, strategy, rs, k) && rs[k] == Registration(request, response)
  {
    ClientRegistryIsFold(ManualRegistration, strategy, rs, request, response);
  }

  const REFLECTION_PAIR: Pairs := map[REFLECTION_REQUEST := REFLECTION_RESPONSE]

  /** One whole reply frame came in, and the parser said this about it. */
  ghost predicate Parsed(codec: Codec, response: Name, before: Bytes, after: Bytes, parsed: Result<Message, ParseError>) {
    && NextFrame(before).Some? && NextFrame(before).value.1 == after
    && ParseTyped(codec, response, NextFrame(before).value.0) == parsed
  }

  /** A whole request frame went out and a whole reply frame came in: the peer took the one and held
      the other, and no read came back short. */
  ghost predicate Exchanged(room: Room, message: ProtocolMessage, before: Bytes, short: bool) {
    Absorbed(room, Frame(message)) == Frame(message) && NextFrame(before).Some? && !short
  }

  class SyncClient {
    const codec: Codec
    const validation: Validation
    const strategy: Strategy
    const client: SyncUnixDomainClient
    var pairs: Pairs

    constructor (codec: Codec, validation: Validation, strategy: Strategy)
      ensures this.codec == codec && this.validation == validation && this.strategy == strategy
      ensures fresh(client) && client.socket == null && pairs == map[]
    {
      this.codec, this.validation, this.strategy, this.pairs := codec, validation, strategy, map[];
      this.client := new SyncUnixDomainClient();
    }

    method RegisterRequestResponsePair(request: Name, response: Name) returns (r: Registered)
      modifies this
      ensures pairs == Put(Effective(validation, strategy), old(pairs), Registration(request, response))
      ensures r == Decide(Effective(validation, strategy), request in old(pairs)).1
      ensures request !in old(pairs) || validation == ServerReflection || strategy == SilentOverride ==>
                pairs == old(pairs)[request := response] && r == Returned(true)
      ensures request in old(pairs) && validation != ServerReflection && strategy != SilentOverride ==>
                && pairs == old(pairs)
                && (strategy == SilentIgnore ==> r == Returned(true))
                && (strategy == IndicateIgnore ==> r == Returned(false))
                && (strategy == Throw ==> r == InvalidArgument)
    {
      if request in pairs && !validation.ServerReflection? {
        r := RegisterDuplicate(request, response);
      } else {
        pairs := pairs[request := response];
        r := Returned(true);
      }
    }

    method RegisterDuplicate(request: Name, response: Name) returns (r: Registered)
      modifies this
      ensures r == OnDuplicate(strategy).1
      ensures pairs == if OnDuplicate(strategy).0 then old(pairs)[request := response] else old(pairs)
    {
      match strategy {
        case SilentOverride =>
          pairs := pairs[request := response];
          r := Returned(true);
        case SilentIgnore => r := Returned(true);
        case IndicateIgnore => r := Returned(false);
        case Throw => r := InvalidArgument;
      }
    }

    method SendAndReceiveMessage(message: ProtocolMessage) returns (r: Result<ProtocolMessage, SyncClientError>)
      modifies client.socket
      ensures client.socket == null ==> r == Err(SyncClientError.UnableToSendMessage)
      ensures r.Err? ==> r.error.UnableToSendMessage? || r.error.UnableToReceiveMessage?
      ensures var socket := client.socket; socket != null ==>
                (r.Ok? <==> Exchanged(old(socket.room), message, old(socket.incoming), socket.cameShort))
      ensures var socket := client.socket; socket != null ==>
                && (r.Err? && r.error.UnableToSendMessage? <==> Absorbed(old(socket.room), Frame(message)) != Frame(message))
                && socket.outgoing == old(socket.outgoing) + Absorbed(old(socket.room), Frame(message))
                && (r.Err? && r.error.UnableToSendMessage? ==> socket.incoming == old(socket.incoming))
                && (r.Err? && r.error.UnableToReceiveMessage? ==> StoppedInside(old(socket.incoming), socket.incoming))
                && (r.Ok? ==> NextFrame(old(socket.incoming)) == Some((r.value, socket.incoming)))
    {
      var sent := client.SendMessage(message);
      if sent.Err? {
        return Err(SyncClientError.UnableToSendMessage);
      }
      var received, _, _ := client.ReceiveMessage();
      if received.Err? {
        return Err(SyncClientError.UnableToReceiveMessage);
      }
      r := Ok(received.value);
    }

    /** Each outcome tells the state of the stream: a bad pair has moved no byte, an unparsable or a
        good reply has moved exactly one frame each way, so the next call starts at a frame boundary. */
    method SendRequest(request: Message, response: Name) returns (r: Result<Message, SyncClientError>)
      modifies client.socket
      ensures r == Err(BadRequestToResponsePair) <==> !Valid(validation, pairs, TypeOf(request), response)
      ensures validation == NoValidation ==> r != Err(BadRequestToResponsePair)
      ensures validation == ManualRegistration || validation == ServerReflection ==>
                (r == Err(BadRequestToResponsePair) <==> TypeOf(request) !in pairs || pairs[TypeOf(request)] != response)
      ensures r != Err(UnableToConnectToServer) && r != Err(UnableToReflectMappings)
      ensures client.socket == null ==> r == Err(BadRequestToResponsePair) || r == Err(SyncClientError.UnableToSendMessage)
      ensures var socket := client.socket; socket != null && r == Err(BadRequestToResponsePair) ==> unchanged(socket)
      ensures var socket, frame := client.socket, Frame(MakePayload(codec, request));
              socket != null && r != Err(BadRequestToResponsePair) ==>
                && socket.outgoing == old(socket.outgoing) + Absorbed(old(socket.room), frame)
                && (r == Err(SyncClientError.UnableToSendMessage) <==> Absorbed(old(socket.room), frame) != frame)
      ensures var socket := client.socket; socket != null && r != Err(BadRequestToResponsePair) ==>
                (r.Ok? || r == Err(UnableToParseReturnedProto)
                 <==> Exchanged(old(socket.room), MakePayload(codec, request), old(socket.incoming), socket.cameShort))
      ensures var socket := client.socket; socket != null ==>
                match r
                case Err(BadRequestToResponsePair) => true
                case Err(UnableToSendMessage) => socket.incoming == old(socket.incoming)
                case Err(UnableToReceiveMessage) => StoppedInside(old(socket.incoming), socket.incoming)
                case Err(_) => exists e :: Parsed(codec, response, old(socket.incoming), socket.incoming, Err(e))
                case Ok(m) => Parsed(codec, response, old(socket.incoming), socket.incoming, Ok(m))
    {
      if !validation.NoValidation? {
        if TypeOf(request) !in pairs || pairs[TypeOf(request)] != response {
          return Err(BadRequestToResponsePair);
        }
      }
      var payload := MakePayload(codec, request);
      var exchanged := SendAndReceiveMessage(payload);
      if exchanged.Err? {
        return Err(exchanged.error);
      }
      match ParseTyped(codec, response, exchanged.value) {
        case Err(e) =>
          assert Parsed(codec, response, old(client.socket.incoming), client.socket.incoming, Err(e));
          r := Err(UnableToParseReturnedProto);
        case Ok(m) => r := Ok(m);
      }
    }

    /** The merge loop writes the reflected pairs one by one, in whatever order they are iterated. */
    method MergePairs(mappings: Pairs)
      modifies this
      ensures pairs == old(pairs) + mappings
    {
      var todo := mappings.Keys;
      while todo != {}
        invariant todo <= mappings.Keys
        invariant pairs.Keys == old(pairs).Keys + (mappings.Keys - todo)
        invariant forall k <- pairs :: pairs[k] == if k in mappings && k !in todo then mappings[k] else old(pairs)[k]
        decreases |todo|
      {
        var k :| k in todo;
        pairs, todo := pairs[k := mappings[k]], todo - {k};
      }
    }

    method ReflectRequestResponseMappingPairs() returns (r: Result<(), SyncClientError>)
      requires codec.Lawful() && validation.ServerReflection?
      modifies this, client.socket
      ensures r.Err? ==> r.error == UnableToReflectMappings && pairs == old(pairs) + REFLECTION_PAIR
      ensures client.socket == null ==> r.Err?
      ensures var socket := client.socket; socket != null ==>
                (r.Ok? <==>
                   && Exchanged(old(socket.room), MakePayload(codec, ReflectionRequest), old(socket.incoming), socket.cameShort)
                   && ParseTyped(codec, REFLECTION_RESPONSE, NextFrame(old(socket.incoming)).value.0).Ok?)
      ensures var socket := client.socket; socket != null ==>
                socket.outgoing == old(socket.outgoing)
                                   + Absorbed(old(socket.room), Frame(MakePayload(codec, ReflectionRequest)))
      ensures var socket := client.socket; socket != null && r.Ok? ==>
                exists mappings ::
                  && Parsed(codec, REFLECTION_RESPONSE, old(socket.incoming), socket.incoming,
                            Ok(ReflectionResponse(mappings)))
                  && pairs == old(pairs) + REFLECTION_PAIR + mappings
    {
      var _ := RegisterRequestResponsePair(REFLECTION_REQUEST, REFLECTION_RESPONSE);
      assert pairs == old(pairs) + REFLECTION_PAIR;
      var reflected := SendRequest(ReflectionRequest, REFLECTION_RESPONSE);
      if reflected.Err? {
        return Err(UnableToReflectMappings);
      }
      ReflectionParse(codec, NextFrame(old(client.socket.incoming)).value.0);
      MergePairs(reflected.value.mappings);
      r := Ok(());
    }

    /** Connecting. With reflection, success leaves the old pairs overridden by the reflection pair and
        then by the server's whole map; the bootstrap request always passes the client's validation. */
    method Connect(peer: Socket?) returns (r: Result<(), SyncClientError>)
      requires codec.Lawful()
      modifies this, client, peer
      ensures peer == null ==> r == Err(UnableToConnectToServer) && pairs == old(pairs)
      ensures client.socket == if peer == null then old(client.socket) else peer
      ensures peer != null && !validation.ServerReflection? ==> r == Ok(()) && pairs == old(pairs) && unchanged(peer)
      ensures peer != null && validation.ServerReflection? ==>
                && (r.Err? ==> r.error == UnableToReflectMappings && pairs == old(pairs) + REFLECTION_PAIR)
                && (r.Ok? <==>
                      && Exchanged(old(peer.room), MakePayload(codec, ReflectionRequest), old(peer.incoming), peer.cameShort)
                      && ParseTyped(codec, REFLECTION_RESPONSE, NextFrame(old(peer.incoming)).value.0).Ok?)
                && peer.outgoing == old(peer.outgoing)
                   + Absorbed(old(peer.room), Frame(MakePayload(codec, ReflectionRequest)))
                && (r.Ok? ==> exists mappings ::
                      && Parsed(codec, REFLECTION_RESPONSE, old(peer.incoming), peer.incoming,
                                Ok(ReflectionResponse(mappings)))
                      && pairs == old(pairs) + REFLECTION_PAIR + mappings)
    {
      var connected := client.Connect(peer);
      if connected.Err? {
        return Err(UnableToConnectToServer);
      }
      if validation.ServerReflection? {
        var reflected := ReflectRequestResponseMappingPairs();
        if reflected.Err? {
          return Err(reflected.error);
        }
      }
      r := Ok(());
    }
  }
}
