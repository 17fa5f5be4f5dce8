/** Length-prefixed frames: a 4-byte host-order length followed by that many payload bytes. */
module Framing {
  import opened Wrappers

  type byte = b: int | 0 <= b < 256

  type Bytes = seq<byte>

  const HEADER_SIZE: nat := 4

  const LENGTH_LIMIT: nat := 0x1_0000_0000

  type uint32 = n: nat | n < LENGTH_LIMIT

  /** A payload whose length survives the cast to a 32-bit unsigned integer. */
  type ProtocolMessage = m: Bytes | |m| < LENGTH_LIMIT

  datatype ByteOrder = LittleEndian | BigEndian

  /** The order in which the host stores an integer. Left uninterpreted: every result holds for both. */
  const HOST: ByteOrder

  function LittleEndianBytes(n: uint32): (h: Bytes)
    ensures |h| == HEADER_SIZE
  {
    [n % 256, n / 256 % 256, n / 0x1_0000 % 256, n / 0x100_0000]
  }

  function LittleEndianValue(h: Bytes): (n: uint32)
    requires |h| == HEADER_SIZE
  {
    var b0: int, b1: int, b2: int, b3: int := h[0], h[1], h[2], h[3];
    b0 + 256 * b1 + 0x1_0000 * b2 + 0x100_0000 * b3
  }

  function Swapped(h: Bytes): (r: Bytes)
    requires |h| == HEADER_SIZE
    ensures |r| == HEADER_SIZE
  {
    [h[3], h[2], h[1], h[0]]
  }

  /** The bytes of a 32-bit length as they lie in memory. */
  function Header(n: uint32): (h: Bytes)
    ensures |h| == HEADER_SIZE
  {
    match HOST
    case LittleEndian => LittleEndianBytes(n)
    case BigEndian => Swapped(LittleEndianBytes(n))
  }

  /** The 32-bit length that the four bytes in memory stand for. */
  function Length(h: Bytes): (n: uint32)
    requires |h| == HEADER_SIZE
  {
    match HOST
    case LittleEndian => LittleEndianValue(h)
    case BigEndian => LittleEndianValue(Swapped(h))
  }

  lemma {:induction false} LittleEndianInverse(h: Bytes)
    requires |h| == HEADER_SIZE
    ensures LittleEndianBytes(LittleEndianValue(h)) == h
  {
    var n, b1: int, b2: int, b3: int := LittleEndianValue(h), h[1], h[2], h[3];
    assert n / 256 == b1 + 256 * b2 + 0x1_0000 * b3;
    assert n / 0x1_0000 == b2 + 256 * b3;
    assert n / 0x100_0000 == b3;
  }

  /** The header encoding is a bijection between lengths below 2^32 and 4-byte strings. */
  lemma {:induction false} HeaderBijection(n: uint32, h: Bytes)
    requires |h| == HEADER_SIZE
    ensures Length(Header(n)) == n
    ensures Header(Length(h)) == h
  {
    LittleEndianInverse(h);
    LittleEndianInverse(Swapped(h));
    var b := LittleEndianBytes(n);
    assert n / 0x1_0000 == n / 256 / 256;
    assert n / 0x100_0000 == n / 256 / 256 / 256;
    assert LittleEndianValue(b) == n;
    assert Swapped(Swapped(b)) == b && Swapped(Swapped(h)) == h;
  }

  /** Read as a number in the host's byte order, the header is the length. */
  lemma {:induction false} HeaderMeans(n: uint32)
    ensures HOST.LittleEndian? ==> PlaceValue(Header(n)) == n
    ensures HOST.BigEndian? ==> PlaceValue(Swapped(Header(n))) == n
  {
    HeaderBijection(n, Header(n));
    PlaceValueOfFour(Header(n));
    PlaceValueOfFour(Swapped(Header(n)));
  }

  lemma {:induction false} PlaceValueOfFour(h: Bytes)
    requires |h| == HEADER_SIZE
    ensures PlaceValue(h) == LittleEndianValue(h)
  {
    var b0: int, b1: int, b2: int, b3: int := h[0], h[1], h[2], h[3];
    assert h[1..][0] == h[1] && h[1..][1..] == h[2..];
    assert h[2..][0] == h[2] && h[2..][1..] == h[3..];
    assert h[3..][0] == h[3] && h[3..][1..] == [];
    assert PlaceValue(h[3..]) == b3 && PlaceValue(h[2..]) == b2 + 256 * b3;
    assert PlaceValue(h[1..]) == b1 + 256 * b2 + 0x1_0000 * b3;
  }

  /** The number whose digits to the base 256 these are, the least significant first. */
  function PlaceValue(digits: Bytes): nat {
    if digits == [] then 0 else digits[0] + 256 * PlaceValue(digits[1..])
  }

  function Frame(m: ProtocolMessage): (f: Bytes)
    ensures |f| == HEADER_SIZE + |m|
  {
    Header(|m|) + m
  }

  function Frames(ms: seq<ProtocolMessage>): Bytes {
    if ms == [] then [] else Frame(ms[0]) + Frames(ms[1..])
  }

  /** The first complete frame of a byte string and what follows it, if there is one. */
  function NextFrame(s: Bytes): (r: Option<(ProtocolMessage, Bytes)>)
    ensures r.Some? ==> s == Frame(r.value.0) + r.value.1
    ensures r.None? <==> |s| < HEADER_SIZE || |s| < HEADER_SIZE + Length(s[..HEADER_SIZE])
  {
    if |s| < HEADER_SIZE then None
    else
      var n := Length(s[..HEADER_SIZE]);
      if |s| < HEADER_SIZE + n then None
      else
        HeaderBijection(n, s[..HEADER_SIZE]);
        assert s == s[..HEADER_SIZE] + s[HEADER_SIZE..HEADER_SIZE + n] + s[HEADER_SIZE + n..];
        Some((s[HEADER_SIZE..HEADER_SIZE + n], s[HEADER_SIZE + n..]))
  }

  /** The same frame read in two pieces, header first. */
  lemma {:induction false} NextFrameParts(s: Bytes, n: nat)
    requires |s| >= HEADER_SIZE && n == Length(s[..HEADER_SIZE]) && |s[HEADER_SIZE..]| >= n
    ensures NextFrame(s) == Some((s[HEADER_SIZE..][..n], s[HEADER_SIZE..][n..]))
  {
    assert s[HEADER_SIZE..][..n] == s[HEADER_SIZE..HEADER_SIZE + n];
    assert s[HEADER_SIZE..][n..] == s[HEADER_SIZE + n..];
  }

  datatype Split = Split(frames: seq<ProtocolMessage>, rest: Bytes)

  /** The reference reading of a byte stream: its complete frames, then the unfinished remainder. */
  function SplitFrames(s: Bytes): Split
    decreases |s|
  {
    match NextFrame(s)
    case None => Split([], s)
    case Some((m, rest)) =>
      var later := SplitFrames(rest);
      Split([m] + later.frames, later.rest)
  }

  /** A frame at the front of a stream is the one that is read, whatever follows it. */
  lemma {:induction false} NextFrameOfFrame(m: ProtocolMessage, t: Bytes)
    ensures NextFrame(Frame(m) + t) == Some((m, t))
  {
    var s := Frame(m) + t;
    assert s[..HEADER_SIZE] == Header(|m|);
    HeaderBijection(|m|, Header(|m|));
    assert s[HEADER_SIZE..HEADER_SIZE + |m|] == m;
    assert s[HEADER_SIZE + |m|..] == t;
  }

  lemma {:induction false} Cancel<T>(x: seq<T>, y: seq<T>, z: seq<T>)
    requires x + y == x + z
    ensures y == z
  {
    assert (x + y)[|x|..] == y && (x + z)[|x|..] == z;
  }

  lemma {:induction false} Assoc<T>(x: seq<T>, y: seq<T>, z: seq<T>)
    ensures (x + y) + z == x + (y + z)
  {
  }

  lemma {:induction false} FramesCons(m: ProtocolMessage, ms: seq<ProtocolMessage>)
    ensures Frames([m] + ms) == Frame(m) + Frames(ms)
  {
    assert ([m] + ms)[1..] == ms;
  }

  lemma {:induction false} FramesConcat(a: seq<ProtocolMessage>, b: seq<ProtocolMessage>)
    ensures Frames(a + b) == Frames(a) + Frames(b)
  {
    if a == [] {
      assert a + b == b;
    } else {
      assert (a + b)[1..] == a[1..] + b;
      FramesConcat(a[1..], b);
    }
  }

  lemma {:induction false} FramesSnoc(a: seq<ProtocolMessage>, m: ProtocolMessage)
    ensures Frames(a + [m]) == Frames(a) + Frame(m)
  {
    FramesConcat(a, [m]);
    assert [m][1..] == [];
    assert Frames([m]) == Frame(m) + [];
  }

  /** Encoding then decoding: concatenated frames followed by an unfinished tail read back exactly. */
  lemma {:induction false} SplitOfFrames(ms: seq<ProtocolMessage>, tail: Bytes)
    requires NextFrame(tail).None?
    ensures SplitFrames(Frames(ms) + tail) == Split(ms, tail)
  {
    if ms == [] {
      assert Frames(ms) + tail == tail;
    } else {
      assert Frames(ms) + tail == Frame(ms[0]) + (Frames(ms[1..]) + tail);
      NextFrameOfFrame(ms[0], Frames(ms[1..]) + tail);
      SplitOfFrames(ms[1..], tail);
    }
  }

  lemma {:induction false} WholeStream(ms: seq<ProtocolMessage>)
    ensures SplitFrames(Frames(ms)).frames == ms
  {
    SplitOfFrames(ms, []);
    assert Frames(ms) + [] == Frames(ms);
  }

  lemma {:induction false} SplitCons(s: Bytes, m: ProtocolMessage, rest: Bytes)
    requires NextFrame(s) == Some((m, rest))
    ensures SplitFrames(s).frames == [m] + SplitFrames(rest).frames
    ensures |s| == HEADER_SIZE + |m| + |rest|
  {
  }

  /** Decoding then encoding: no byte is lost and the remainder holds no complete frame. */
  lemma {:induction false} SplitRejoins(s: Bytes)
    ensures Frames(SplitFrames(s).frames) + SplitFrames(s).rest == s
    ensures NextFrame(SplitFrames(s).rest).None?
    decreases |s|
  {
    match NextFrame(s) {
      case None =>
      case Some((m, rest)) =>
        SplitRejoins(rest);
        var later := SplitFrames(rest);
        FramesCons(m, later.frames);
        Assoc(Frame(m), Frames(later.frames), later.rest);
    }
  }

  /** Bytes that arrive later never change the messages already decoded. */
  lemma {:induction false} SplitAppend(s: Bytes, t: Bytes)
    ensures SplitFrames(s).frames <= SplitFrames(s + t).frames
    ensures SplitFrames(s + t).frames == SplitFrames(s).frames + SplitFrames(SplitFrames(s).rest + t).frames
    ensures SplitFrames(s + t).rest == SplitFrames(SplitFrames(s).rest + t).rest
    decreases |s|
  {
    match NextFrame(s) {
      case None =>
        assert SplitFrames(s) == Split([], s);
      case Some((m, rest)) =>
        Assoc(Frame(m), rest, t);
        NextFrameOfFrame(m, rest + t);
        SplitAppend(rest, t);
        Assoc([m], SplitFrames(rest).frames, SplitFrames(SplitFrames(rest).rest + t).frames);
    }
  }

  /** Unique decoding: frames at the front of a stream of frames are its first messages. */
  lemma {:induction false} FramesPrefix(a: seq<ProtocolMessage>, t: Bytes, b: seq<ProtocolMessage>)
    requires Frames(a) + t <= Frames(b)
    ensures a <= b
    ensures t != [] ==> |a| < |b|
  {
    if a != [] {
      var rest, u := Frames(a[1..]) + t, Frames(b)[|Frames(a) + t|..];
      assert Frames(b) == (Frames(a) + t) + u;
      Assoc(Frame(a[0]), Frames(a[1..]), t);
      Assoc(Frame(a[0]), rest, u);
      NextFrameOfFrame(a[0], rest + u);
      NextFrameOfFrame(b[0], Frames(b[1..]));
      FramesPrefix(a[1..], t, b[1..]);
    }
  }
}
