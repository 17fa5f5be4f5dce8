/** A connected stream socket as one end sees it: reads and writes move chunks of unknown size. */
module Sockets {
  import opened Framing
  import opened Handling

  /** What a read or write call returns, or the system error it throws. */
  datatype Moved = Count(n: nat) | Fault(fault: SystemFault)

  /** How many bytes the peer will still take before writing to it fails. */
  datatype Room = Unlimited | Limited(n: nat)

  function After(room: Room, used: nat): Room
    requires room.Limited? ==> used <= room.n
  {
    match room case Unlimited => Unlimited case Limited(n) => Limited(n - used)
  }

  /** The part of `data` that a peer with this much room takes. */
  function Absorbed(room: Room, data: Bytes): Bytes {
    if room.Limited? && room.n < |data| then data[..room.n] else data
  }

  class Socket {
    var incoming: Bytes
    var outgoing: Bytes
    var room: Room
    /** The last read delivered fewer bytes than it asked for. */
    ghost var cameShort: bool
    const readFault: SystemFault
    const writeFault: SystemFault

    /** `incoming` is what the peer will ever deliver; after it, reads throw `readFault`. */
    constructor (incoming: Bytes, readFault: SystemFault, room: Room, writeFault: SystemFault)
      ensures this.incoming == incoming && this.outgoing == [] && this.room == room
      ensures this.readFault == readFault && this.writeFault == writeFault
    {
      this.incoming, this.outgoing, this.room := incoming, [], room;
      this.readFault, this.writeFault := readFault, writeFault;
    }

    /** `read_some` into `buffer[at..at + n]`: at least one byte and possibly fewer than asked for. */
    method ReadSome(buffer: array<byte>, at: nat, n: nat) returns (r: Moved)
      requires at + n <= buffer.Length
      modifies `incoming, `cameShort, buffer
      ensures cameShort <==> r.Count? && r.n < n
      ensures n == 0 ==> r == Count(0)
      ensures n > 0 && old(incoming) == [] ==> r == Fault(readFault)
      ensures n > 0 && old(incoming) != [] ==> r.Count? && 1 <= r.n <= n
      ensures r.Fault? ==> incoming == old(incoming) && buffer[..] == old(buffer[..])
      ensures r.Count? ==> r.n <= n && r.n <= |old(incoming)| && incoming == old(incoming)[r.n..]
      ensures r.Count? ==> buffer[..] == old(buffer[..at]) + old(incoming)[..r.n] + old(buffer[at + r.n..])
    {
      cameShort := false;
      if n == 0 {
        r := Count(0);
      } else if incoming == [] {
        r := Fault(readFault);
      } else {
        var k :| 1 <= k <= n && k <= |incoming|;
        CopyInto(buffer, at, incoming[..k]);
        incoming, cameShort := incoming[k..], k < n;
        r := Count(k);
      }
    }

    /** `boost::asio::read`: fills the buffer, or throws once the peer has nothing more. */
    method ReadFull(buffer: array<byte>) returns (r: Moved)
      modifies `incoming, `cameShort, buffer
      ensures |old(incoming)| >= buffer.Length ==>
                && r == Count(buffer.Length)
                && buffer[..] == old(incoming)[..buffer.Length] && incoming == old(incoming)[buffer.Length..]
      ensures |old(incoming)| < buffer.Length ==> r == Fault(readFault) && incoming == []
    {
      var done := 0;
      while done < buffer.Length
        invariant done <= buffer.Length && done <= |old(incoming)|
        invariant incoming == old(incoming)[done..]
        invariant buffer[..done] == old(incoming)[..done]
      {
        ghost var before := buffer[..];
        var moved := ReadSome(buffer, done, buffer.Length - done);
        if moved.Fault? {
          return moved;
        }
        assert buffer[..done + moved.n] == before[..done] + old(incoming)[done..][..moved.n];
        done := done + moved.n;
      }
      assert buffer[..done] == buffer[..];
      r := Count(done);
    }

    /** `write_some` from `buffer[at..]`. */
    method WriteSome(buffer: array<byte>, at: nat) returns (r: Moved)
      requires at < buffer.Length
      modifies `outgoing, `room
      ensures old(room) == Limited(0) ==> r == Fault(writeFault) && outgoing == old(outgoing) && room == old(room)
      ensures old(room) != Limited(0) ==>
                && r.Count? && 1 <= r.n <= buffer.Length - at && (old(room).Limited? ==> r.n <= old(room).n)
                && outgoing == old(outgoing) + buffer[at..at + r.n] && room == After(old(room), r.n)
    {
      if room == Limited(0) {
        r := Fault(writeFault);
      } else {
        var k :| 1 <= k <= buffer.Length - at && (room.Limited? ==> k <= room.n);
        outgoing := outgoing + buffer[at..at + k];
        room := After(room, k);
        r := Count(k);
      }
    }

    /** `boost::asio::write`: writes everything, or throws after the part the peer still took. */
    method WriteFull(buffer: array<byte>) returns (r: Moved)
      modifies `outgoing, `room
      ensures outgoing == old(outgoing) + Absorbed(old(room), buffer[..])
      ensures room == After(old(room), |Absorbed(old(room), buffer[..])|)
      ensures old(room).Limited? && old(room).n < buffer.Length ==> r == Fault(writeFault)
      ensures !(old(room).Limited? && old(room).n < buffer.Length) ==> r == Count(buffer.Length)
    {
      var done := 0;
      assert outgoing + buffer[..0] == outgoing;
      while done < buffer.Length
        invariant done <= buffer.Length && (old(room).Limited? ==> done <= old(room).n)
        invariant outgoing == old(outgoing) + buffer[..done]
        invariant room == After(old(room), done)
      {
        var moved := WriteSome(buffer, done);
        if moved.Fault? {
          assert buffer[..done] == buffer[..][..done];
          return moved;
        }
        assert buffer[..done] + buffer[done..done + moved.n] == buffer[..done + moved.n];
        done := done + moved.n;
      }
      assert buffer[..done] == buffer[..];
      r := Count(done);
    }
  }

  /** `memcpy` of a byte string into a buffer. */
  method CopyInto(buffer: array<byte>, at: nat, source: Bytes)
    requires at + |source| <= buffer.Length
    modifies buffer
    ensures buffer[..] == old(buffer[..at]) + source + old(buffer[at + |source|..])
  {
    for i := 0 to |source|
      invariant forall k | 0 <= k < i :: buffer[at + k] == source[k]
      invariant forall k | 0 <= k < at || at + i <= k < buffer.Length :: buffer[k] == old(buffer[k])
    {
      buffer[at + i] := source[i];
    }
  }

  /** The header and the payload copied into one buffer, as both senders lay a frame out. */
  method FrameBuffer(message: ProtocolMessage) returns (buffer: array<byte>)
    ensures fresh(buffer) && buffer[..] == Frame(message)
  {
    buffer := new byte[HEADER_SIZE + |message|];
    CopyInto(buffer, 0, Header(|message|));
    ghost var half := buffer[..];
    CopyInto(buffer, HEADER_SIZE, message);
    assert half[..HEADER_SIZE] == Header(|message|);
    assert half[HEADER_SIZE + |message|..] == [];
  }
}
