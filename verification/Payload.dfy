/** Tagged payloads: a type name, the first ':' and the serialized message. */
module Payload {
  import opened Wrappers
  import opened Framing

  /** A serialized message; Protocol Buffers refuses messages of 2 GiB or more. */
  type Serialized = b: Bytes | |b| < 0x8000_0000

  /** A full type name. */
  type Name = n: Bytes | |n| < 0x4000_0000

  const COLON: byte := 58

  /** The contents of an application message, about which nothing is assumed. */
  type Content(==, !new)

  /** A message of the descriptor pool: the two built-in ones and those of the application. */
  datatype Message =
    | ReflectionRequest
    | ReflectionResponse(mappings: map<Name, Name>)
    | Application(typeName: Name, content: Content)

  function Ascii(s: string): (b: Bytes)
    ensures |b| == |s|
  {
    seq(|s|, i requires 0 <= i < |s| => (if s[i] as int < 256 then s[i] as int else 0) as byte)
  }

  const INTERNAL_PACKAGE := "ipcourier.internal_request_proto."

  const INTERNAL_MESSAGE := "IPCInternal_GetRequestResponseMappingPairs"

  const REFLECTION_REQUEST: Name := Ascii(INTERNAL_PACKAGE) + Ascii(INTERNAL_MESSAGE) + Ascii("Request")

  const REFLECTION_RESPONSE: Name := Ascii(INTERNAL_PACKAGE) + Ascii(INTERNAL_MESSAGE) + Ascii("Response")

  function TypeOf(m: Message): Name {
    match m
    case ReflectionRequest => REFLECTION_REQUEST
    case ReflectionResponse(_) => REFLECTION_RESPONSE
    case Application(typeName, _) => typeName
  }

  /** What Protocol Buffers supplies: the application's types, serialization, which may refuse a message
      (one of 2 GiB, say), and parsing. */
  datatype Codec = Codec(
    applicationTypes: set<Name>,
    serialize: Message -> Option<Serialized>,
    parse: (Bytes, Bytes) -> Option<Message>)
  {
    predicate Knows(name: Bytes) {
      name == REFLECTION_REQUEST || name == REFLECTION_RESPONSE || name in applicationTypes
    }

    predicate WellFormed(m: Message) {
      m.Application? ==> m.typeName in applicationTypes
    }

    predicate Encodes(m: Message) {
      WellFormed(m) && serialize(m).Some?
    }

    /** Parsing as a type yields a message of that type and undoes serialization; the empty reflection
        request is never refused; names are identifiers joined by dots, so they hold no ':'. */
    ghost predicate Lawful() {
      && REFLECTION_REQUEST !in applicationTypes
      && REFLECTION_RESPONSE !in applicationTypes
      && (forall n <- applicationTypes :: COLON !in n)
      && (forall n, data :: parse(n, data).Some? ==>
            TypeOf(parse(n, data).value) == n && WellFormed(parse(n, data).value))
      && (forall m :: Encodes(m) ==> parse(TypeOf(m), serialize(m).value) == Some(m))
      && Encodes(ReflectionRequest)
    }
  }

  datatype ParseError = InvalidFormat | TypeMismatch | DeserializationFailed

  function CreatePayload(typeName: Bytes, data: Bytes): Bytes {
    typeName + [COLON] + data
  }

  /** The position of the first ':' (`std::string::find`). */
  function FindColon(payload: Bytes): (r: Option<nat>)
    ensures r.Some? ==> r.value < |payload| && payload[r.value] == COLON
    ensures r.Some? ==> forall k | 0 <= k < r.value :: payload[k] != COLON
    ensures r.None? ==> COLON !in payload
  {
    if payload == [] then None
    else if payload[0] == COLON then Some(0)
    else
      match FindColon(payload[1..])
      case None => None
      case Some(i) =>
        assert forall k | 0 < k <= i :: payload[k] == payload[1..][k - 1];
        Some(i + 1)
  }

  /** The outcome of serialization is not looked at: a refused message is sent as an empty one. */
  function MakePayload(codec: Codec, m: Message): ProtocolMessage {
    CreatePayload(TypeOf(m), codec.serialize(m).UnwrapOr([]))
  }

  /** The typed parser: the caller names the type it expects. */
  function ParseTyped(codec: Codec, expected: Name, payload: Bytes): (r: Result<Message, ParseError>) {
    match FindColon(payload)
    case None => Err(InvalidFormat)
    case Some(i) =>
      if payload[..i] != expected then Err(TypeMismatch)
      else
        match codec.parse(expected, payload[i + 1..])
        case None => Err(DeserializationFailed)
        case Some(m) => Ok(m)
  }

  /** The dynamic parser: the payload names its own type, looked up in the descriptor pool. */
  function ParseDynamic(codec: Codec, payload: Bytes): (r: Result<Message, ParseError>) {
    match FindColon(payload)
    case None => Err(InvalidFormat)
    case Some(i) =>
      if !codec.Knows(payload[..i]) then Err(DeserializationFailed)
      else
        match codec.parse(payload[..i], payload[i + 1..])
        case None => Err(DeserializationFailed)
        case Some(m) => Ok(m)
  }

  /** A payload is malformed, for either parser, exactly if it holds no ':'. */
  lemma {:induction false} MalformedIff(codec: Codec, expected: Name, payload: Bytes)
    ensures ParseTyped(codec, expected, payload) == Err(InvalidFormat) <==> COLON !in payload
    ensures ParseDynamic(codec, payload) == Err(InvalidFormat) <==> COLON !in payload
    ensures COLON in payload ==> exists name, data :: COLON !in name && payload == CreatePayload(name, data)
  {
    if FindColon(payload).Some? {
      var i := FindColon(payload).value;
      var name := payload[..i];
      assert COLON !in name;
      assert payload == CreatePayload(name, payload[i + 1..]);
    }
  }

  /** What the typed parser makes of every other payload: the tag is compared first, and only data that
      does not parse as the expected type is a failure to deserialize. */
  lemma {:induction false} TypedParse(codec: Codec, expected: Name, name: Bytes, data: Bytes)
    requires COLON !in name
    ensures var parsed := ParseTyped(codec, expected, CreatePayload(name, data));
            && (parsed == Err(TypeMismatch) <==> name != expected)
            && (parsed == Err(DeserializationFailed) <==> name == expected && codec.parse(name, data).None?)
            && (forall m :: parsed == Ok(m) <==> name == expected && codec.parse(name, data) == Some(m))
  {
    SplitOfCreated(name, data);
  }

  /** And the dynamic parser: every failure but that of the format is a failure to deserialize. */
  lemma {:induction false} DynamicParse(codec: Codec, name: Bytes, data: Bytes)
    requires COLON !in name
    ensures var parsed, known := ParseDynamic(codec, CreatePayload(name, data)),
                                 name == REFLECTION_REQUEST || name == REFLECTION_RESPONSE || name in codec.applicationTypes;
            && (parsed == Err(DeserializationFailed) <==> !known || codec.parse(name, data).None?)
            && parsed != Err(TypeMismatch)
            && (forall m :: parsed == Ok(m) <==> known && codec.parse(name, data) == Some(m))
  {
    SplitOfCreated(name, data);
  }

  /** The two parsers are written independently; they agree on every payload and every known type,
      and a payload that either of them accepts is tagged with the type of the message found. */
  lemma {:induction false} ParsersAgree(codec: Codec, expected: Name, payload: Bytes, m: Message)
    requires codec.Lawful() && codec.Knows(expected)
    ensures ParseTyped(codec, expected, payload) == Ok(m)
            <==> ParseDynamic(codec, payload) == Ok(m) && TypeOf(m) == expected
    ensures ParseTyped(codec, expected, payload) == Err(InvalidFormat)
            <==> ParseDynamic(codec, payload) == Err(InvalidFormat)
    ensures ParseTyped(codec, expected, payload) == Err(TypeMismatch)
            ==> forall other :: ParseDynamic(codec, payload) == Ok(other) ==> TypeOf(other) != expected
    ensures ParseDynamic(codec, payload) == Ok(m)
            ==> exists data :: payload == CreatePayload(TypeOf(m), data) && codec.parse(TypeOf(m), data) == Some(m)
  {
    if ParseDynamic(codec, payload) == Ok(m) {
      var i := FindColon(payload).value;
      assert payload == CreatePayload(payload[..i], payload[i + 1..]);
    }
  }

  /** The first delimiter of a created payload ends the name, whatever bytes the data holds. */
  lemma {:induction false} SplitOfCreated(name: Bytes, data: Bytes)
    requires COLON !in name
    ensures FindColon(CreatePayload(name, data)) == Some(|name|)
    ensures CreatePayload(name, data)[..|name|] == name
    ensures CreatePayload(name, data)[|name| + 1..] == data
  {
    var p := CreatePayload(name, data);
    assert p[|name|] == COLON;
    forall i | 0 <= i < |name| ensures p[i] != COLON {
      assert p[i] == name[i];
    }
  }

  /** Equal payloads come from equal names and equal data. */
  lemma {:induction false} PayloadInjective(n1: Bytes, d1: Bytes, n2: Bytes, d2: Bytes)
    requires COLON !in n1 && COLON !in n2
    requires CreatePayload(n1, d1) == CreatePayload(n2, d2)
    ensures n1 == n2 && d1 == d2
  {
    SplitOfCreated(n1, d1);
    SplitOfCreated(n2, d2);
  }

  lemma {:induction false} AsciiWithoutColon(s: string)
    requires ':' !in s
    ensures COLON !in Ascii(s)
  {
    assert ':' as int == COLON;
    forall i | 0 <= i < |s| ensures Ascii(s)[i] != COLON {
      assert s[i] as int != ':' as int;
    }
  }

  lemma {:induction false} BuiltInNames()
    ensures COLON !in REFLECTION_REQUEST && COLON !in REFLECTION_RESPONSE
    ensures REFLECTION_REQUEST != REFLECTION_RESPONSE
  {
    AsciiWithoutColon(INTERNAL_PACKAGE);
    AsciiWithoutColon(INTERNAL_MESSAGE);
    AsciiWithoutColon("Request");
    AsciiWithoutColon("Response");
    assert |REFLECTION_REQUEST| + 1 == |REFLECTION_RESPONSE|;
  }

  /** A message survives the trip through its payload, by either parser, exactly if it could be
      serialized or is what empty data stands for anyway. */
  lemma {:induction false} PayloadRoundTrip(codec: Codec, m: Message)
    requires codec.Lawful() && codec.WellFormed(m)
    ensures ParseTyped(codec, TypeOf(m), MakePayload(codec, m)) == Ok(m)
            <==> codec.Encodes(m) || codec.parse(TypeOf(m), []) == Some(m)
    ensures ParseDynamic(codec, MakePayload(codec, m)) == Ok(m)
            <==> codec.Encodes(m) || codec.parse(TypeOf(m), []) == Some(m)
  {
    BuiltInNames();
    SplitOfCreated(TypeOf(m), codec.serialize(m).UnwrapOr([]));
  }

  /** What a created payload stands for, serialized or not, is at worst another message of its type. */
  lemma {:induction false} ParsesAsItsType(codec: Codec, m: Message)
    requires codec.Lawful() && codec.WellFormed(m)
    ensures match ParseDynamic(codec, MakePayload(codec, m))
            case Ok(x) => TypeOf(x) == TypeOf(m) && (codec.Encodes(m) ==> x == m)
            case Err(e) => !codec.Encodes(m) && e == DeserializationFailed
  {
    BuiltInNames();
    SplitOfCreated(TypeOf(m), codec.serialize(m).UnwrapOr([]));
  }

  /** A payload that parses as a reflection response is one. */
  lemma {:induction false} ReflectionParse(codec: Codec, payload: Bytes)
    requires codec.Lawful() && ParseTyped(codec, REFLECTION_RESPONSE, payload).Ok?
    ensures ParseTyped(codec, REFLECTION_RESPONSE, payload).value.ReflectionResponse?
  {
    BuiltInNames();
  }

  /** The tag of a payload is always right: a typed parse is refused as a mismatch exactly if it asks for
      another type, and never as malformed. */
  lemma {:induction false} WrongTypeIsMismatch(codec: Codec, m: Message, expected: Name)
    requires codec.Lawful() && codec.WellFormed(m)
    ensures ParseTyped(codec, expected, MakePayload(codec, m)) == Err(TypeMismatch) <==> expected != TypeOf(m)
    ensures ParseTyped(codec, expected, MakePayload(codec, m)) != Err(InvalidFormat)
  {
    BuiltInNames();
    SplitOfCreated(TypeOf(m), codec.serialize(m).UnwrapOr([]));
  }
}
