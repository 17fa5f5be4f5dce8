/** The client end of the transport: one frame out, one frame in. */
module UnixDomainClient {
  import opened Wrappers
  import opened Framing
  import opened Sockets

  datatype ClientError = ConnectionFailed | NotEnoughBytesReceived | UnableToSendMessage | UnableToReceiveMessage

  /** What a failed receive may have done to the stream: taken a strict prefix of one frame. */
  predicate StoppedInside(before: Bytes, after: Bytes) {
    && |after| <= |before|
    && before[|before| - |after|..] == after
    && NextFrame(before[..|before| - |after|]).None?
  }

  datatype Received = Received(result: Result<ProtocolMessage, ClientError>, taken: nat)

  /** The two reads can deliver this many bytes; one that delivers none of those asked for has thrown. */
  predicate Delivers(incoming: Bytes, first: nat, second: nat) {
    && first <= HEADER_SIZE && first <= |incoming|
    && if first == HEADER_SIZE then second <= Length(incoming[..HEADER_SIZE]) && HEADER_SIZE + second <= |incoming|
       else second == 0
  }

  /** What a receive returns, and how much of the stream it takes, when its reads deliver this many bytes. */
  function ReceiveOn(incoming: Bytes, first: nat, second: nat): Received
    requires Delivers(incoming, first, second)
  {
    if first == 0 then Received(Err(UnableToReceiveMessage), 0)
    else if first < HEADER_SIZE then Received(Err(ClientError.NotEnoughBytesReceived), first)
    else
      var length := Length(incoming[..HEADER_SIZE]);
      if second == length then Received(Ok(incoming[HEADER_SIZE..][..second]), HEADER_SIZE + second)
      else if second == 0 then Received(Err(UnableToReceiveMessage), HEADER_SIZE)
      else Received(Err(ClientError.NotEnoughBytesReceived), HEADER_SIZE + second)
  }

  lemma {:induction false} HeaderOnly(before: Bytes, k: nat)
    requires HEADER_SIZE <= |before|
    requires k < Length(before[..HEADER_SIZE]) && HEADER_SIZE + k <= |before|
    ensures StoppedInside(before, before[HEADER_SIZE..][k..])
  {
    assert before[HEADER_SIZE..][k..] == before[HEADER_SIZE + k..];
    assert before[..HEADER_SIZE + k][..HEADER_SIZE] == before[..HEADER_SIZE];
  }

  class SyncUnixDomainClient {
    /** Null until connected and after disconnecting. */
    var socket: Socket?

    constructor ()
      ensures socket == null
    {
      socket := null;
    }

    /** `peer` is the connection the operating system establishes, null when it refuses. */
    method Connect(peer: Socket?) returns (r: Result<(), ClientError>)
      modifies this
      ensures r.Ok? <==> peer != null
      ensures r.Err? ==> r.error == ConnectionFailed && socket == old(socket)
      ensures r.Ok? ==> socket == peer
    {
      if peer == null {
        return Err(ConnectionFailed);
      }
      socket := peer;
      r := Ok(());
    }

    method Disconnect()
      modifies this
      ensures socket == null
    {
      socket := null;
    }

    method SendMessage(message: ProtocolMessage) returns (r: Result<(), ClientError>)
      modifies socket
      ensures r.Err? ==> r.error == ClientError.UnableToSendMessage
      ensures socket == null ==> r.Err?
      ensures socket != null ==>
                && socket.outgoing == old(socket.outgoing) + Absorbed(old(socket.room), Frame(message))
                && socket.room == After(old(socket.room), |Absorbed(old(socket.room), Frame(message))|)
                && (r.Ok? <==> Absorbed(old(socket.room), Frame(message)) == Frame(message))
                && socket.incoming == old(socket.incoming)
    {
      var buffer := FrameBuffer(message);
      if socket == null {
        return Err(ClientError.UnableToSendMessage);
      }
      var moved := socket.WriteFull(buffer);
      if moved.Fault? {
        return Err(ClientError.UnableToSendMessage);
      }
      r := Ok(());
    }

    /** Two single reads, each of which may come back short. A success consumes exactly one frame, and
        only a short read or the end of the stream within a frame stands in its way. */
    method ReceiveMessage() returns (r: Result<ProtocolMessage, ClientError>, ghost first: nat, ghost second: nat)
      modifies socket
      ensures socket == null ==> r == Err(UnableToReceiveMessage)
      ensures socket != null ==> socket.outgoing == old(socket.outgoing) && socket.room == old(socket.room)
      ensures socket != null && r.Ok? ==> NextFrame(old(socket.incoming)) == Some((r.value, socket.incoming))
      ensures socket != null && r.Err? ==> StoppedInside(old(socket.incoming), socket.incoming)
      ensures socket != null && r == Err(UnableToReceiveMessage) ==> socket.incoming == []
      ensures socket != null ==> (r.Ok? <==> NextFrame(old(socket.incoming)).Some? && !socket.cameShort)
      ensures socket != null ==> (r == Err(ClientError.NotEnoughBytesReceived) <==> socket.cameShort)
      ensures socket != null ==>
                && Delivers(old(socket.incoming), first, second)
                && r == ReceiveOn(old(socket.incoming), first, second).result
                && socket.incoming == old(socket.incoming)[ReceiveOn(old(socket.incoming), first, second).taken..]
      ensures r.Err? ==> r.error == UnableToReceiveMessage || r.error == ClientError.NotEnoughBytesReceived
    {
      first, second := 0, 0;
      if socket == null {
        return Err(UnableToReceiveMessage), first, second;
      }
      ghost var before := socket.incoming;
      var header := new byte[HEADER_SIZE];
      var moved := socket.ReadSome(header, 0, HEADER_SIZE);
      if moved.Fault? {
        return Err(UnableToReceiveMessage), first, second;
      }
      first := moved.n;
      if moved.n != HEADER_SIZE {
        assert StoppedInside(before, socket.incoming);
        return Err(ClientError.NotEnoughBytesReceived), first, second;
      }
      assert header[..] == before[..HEADER_SIZE];
      var length := Length(header[..]);
      var reply := new byte[length];
      moved := socket.ReadSome(reply, 0, length);
      if moved.Fault? {
        HeaderOnly(before, 0);
        return Err(UnableToReceiveMessage), first, second;
      }
      second := moved.n;
      if moved.n != length {
        HeaderOnly(before, moved.n);
        return Err(ClientError.NotEnoughBytesReceived), first, second;
      }
      NextFrameParts(before, length);
      assert reply[..] == before[HEADER_SIZE..][..length];
      r := Ok(reply[..]);
    }
  }
}
