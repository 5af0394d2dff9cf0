/** Reading messages off a byte stream (framing.go, and the read loops of client.go and conn.go). */
module Framing {
  import opened Bytes
  import opened Layout
  import opened Messages
  import opened RoundTrip
  import opened Decoding

  /** The bytes still to arrive on a connection. */
  class Stream {
    var data: bytes

    constructor (data: bytes)
      ensures this.data == data
    {
      this.data := data;
    }

    /** io.ReadFull: n bytes, or what is left and an error. */
    method ReadFull(n: nat) returns (r: Result<bytes>)
      modifies this
      ensures r == Full(old(data), n).0 && data == Full(old(data), n).1
    {
      if n <= |data| {
        r := Ok(data[..n]);
        data := data[n..];
      } else {
        r := Err(if data == [] then EndOfStream else UnexpectedEnd);
        data := [];
      }
    }

    /** One frame, unless it is shorter than a header or longer than msize (0 for no limit). */
    method ReadMessage(msize: nat) returns (r: Result<bytes>)
      modifies this
      ensures r == NextFrame(old(data), msize).0 && data == NextFrame(old(data), msize).1
    {
      var prefix :- ReadFull(4);
      var size := FromLittleEndian(prefix);
      if size < MIN_FRAME {
        return Err(Truncated);
      }
      if msize != 0 && size > msize {
        return Err(TooLarge);
      }
      var rest :- ReadFull(size - 4);
      return Ok(prefix + rest);
    }

    /** The read loop of either side: what is handed on, in order, and why it stopped. */
    method ReadLoop(msize: nat, unix: bool) returns (got: seq<(uint16, Message)>, e: Error)
      modifies this
      ensures (got, e) == Incoming(old(data), msize, Decode(unix))
    {
      hide FromLittleEndian, DecodeFrame, NextFrame;
      got := [];
      while true
        invariant Incoming(old(data), msize, Decode(unix)).0 == got + Incoming(data, msize, Decode(unix)).0
        invariant Incoming(old(data), msize, Decode(unix)).1 == Incoming(data, msize, Decode(unix)).1
        decreases |data|
      {
        NextFrameShrinks(data, msize);
        var raw := ReadMessage(msize);
        if raw.Err? {
          assert got + [] == got;
          return got, raw.error;
        }
        var m := UnmarshalVersion(raw.value, unix);
        if m.Err? {
          assert got + [] == got;
          return got, m.error;
        }
        ghost var rest := Incoming(data, msize, Decode(unix)).0;
        assert got + ([m.value] + rest) == (got + [m.value]) + rest;
        got := got + [m.value];
      }
    }
  }

  type FrameDecoder = bytes -> Result<(uint16, Message)>

  /** How a connection that did or did not negotiate 9P2000.u reads a frame. */
  function Decode(unix: bool): FrameDecoder
  {
    raw => DecodeFrame(raw, unix)
  }

  function Full(b: bytes, n: nat): (Result<bytes>, bytes)
  {
    if n <= |b| then (Ok(b[..n]), b[n..])
    else (Err(if b == [] then EndOfStream else UnexpectedEnd), [])
  }

  function NextFrame(b: bytes, msize: nat): (Result<bytes>, bytes)
  {
    var (prefix, b1) := Full(b, 4);
    if prefix.Err? then (prefix, b1) else
    var size := FromLittleEndian(prefix.value);
    if size < MIN_FRAME then (Err(Truncated), b1)
    else if msize != 0 && size > msize then (Err(TooLarge), b1)
    else
      var (rest, b2) := Full(b1, size - 4);
      if rest.Err? then (rest, b2) else (Ok(prefix.value + rest.value), b2)
  }

  lemma NextFrameShrinks(b: bytes, msize: nat)
    ensures NextFrame(b, msize).0.Ok? ==> |NextFrame(b, msize).1| < |b|
  {
  }

  function Incoming(b: bytes, msize: nat, decode: FrameDecoder): (seq<(uint16, Message)>, Error)
    decreases |b|
  {
    NextFrameShrinks(b, msize);
    match NextFrame(b, msize).0
    case Err(e) => ([], e)
    case Ok(raw) =>
      match decode(raw)
      case Err(e) => ([], e)
      case Ok(m) =>
        var (rest, e) := Incoming(NextFrame(b, msize).1, msize, decode);
        ([m] + rest, e)
  }

  /** What a peer writes: frames, one after the other, and then a tail. */
  function Outgoing(frames: seq<bytes>, tail: bytes): bytes
  {
    if frames == [] then tail else frames[0] + Outgoing(frames[1..], tail)
  }

  function FramesOf(ms: seq<(uint16, Message)>, unix: bool): (fs: seq<bytes>)
    ensures |fs| == |ms|
  {
    seq(|ms|, i requires 0 <= i < |ms| => Frame(ms[i].0, ms[i].1, unix))
  }

  predicate Sendable(ms: seq<(uint16, Message)>, msize: nat, unix: bool)
  {
    forall i :: 0 <= i < |ms| ==>
      WellFormed(ms[i].1, unix) && (msize == 0 || |Frame(ms[i].0, ms[i].1, unix)| <= msize)
  }

  /** A frame whose size prefix is right is read whole. */
  ghost predicate Readable(raw: bytes, msize: nat)
  {
    |raw| >= MIN_FRAME && FromLittleEndian(raw[..4]) == |raw| && (msize == 0 || |raw| <= msize)
  }

  lemma ReadableIsNext(raw: bytes, msize: nat, tail: bytes)
    requires Readable(raw, msize)
    ensures NextFrame(raw + tail, msize) == (Ok(raw), tail)
  {
    assert (raw + tail)[..4] == raw[..4] && (raw + tail)[4..] == raw[4..] + tail;
    assert (raw[4..] + tail)[..|raw| - 4] == raw[4..] && (raw[4..] + tail)[|raw| - 4..] == tail;
    assert raw[..4] + raw[4..] == raw;
  }

  lemma FirstArrives(raw: bytes, m: (uint16, Message), msize: nat, decode: FrameDecoder, rest: bytes)
    requires NextFrame(raw + rest, msize) == (Ok(raw), rest) && decode(raw) == Ok(m)
    ensures Incoming(raw + rest, msize, decode)
         == ([m] + Incoming(rest, msize, decode).0, Incoming(rest, msize, decode).1)
  {
    hide NextFrame;
  }

  lemma {:induction false} FramesArrive(
      frames: seq<bytes>, ms: seq<(uint16, Message)>, msize: nat, decode: FrameDecoder, tail: bytes)
    requires |frames| == |ms|
    requires forall i :: 0 <= i < |frames| ==> Readable(frames[i], msize) && decode(frames[i]) == Ok(ms[i])
    ensures Incoming(Outgoing(frames, tail), msize, decode).0 == ms + Incoming(tail, msize, decode).0
    ensures Incoming(Outgoing(frames, tail), msize, decode).1 == Incoming(tail, msize, decode).1
  {
    hide FromLittleEndian, NextFrame, Incoming, Readable;
    if frames == [] {
      assert ms + Incoming(tail, msize, decode).0 == Incoming(tail, msize, decode).0;
    } else {
      ReadableIsNext(frames[0], msize, Outgoing(frames[1..], tail));
      FirstArrives(frames[0], ms[0], msize, decode, Outgoing(frames[1..], tail));
      FramesArrive(frames[1..], ms[1..], msize, decode, tail);
      assert [ms[0]] + (ms[1..] + Incoming(tail, msize, decode).0) == ms + Incoming(tail, msize, decode).0;
    }
  }

  lemma FrameIsReadable(tag: uint16, m: Message, unix: bool, msize: nat)
    requires WellFormed(m, unix)
    requires msize == 0 || |Frame(tag, m, unix)| <= msize
    ensures Readable(Frame(tag, m, unix), msize)
    ensures Decode(unix)(Frame(tag, m, unix)) == Ok((tag, m))
  {
    SpanOfWidths();
    var raw := Frame(tag, m, unix);
    FrameParts(tag, m, unix);
    FrameSize(tag, m, unix);
    DecodeEncodeInt(|raw|, 4);
    DecodeAfterEncode(tag, m, unix);
  }

  /** Any list of messages that fit, sent as one run of bytes and followed by anything, arrives as
      the same list followed by whatever the rest reads as. */
  lemma StreamRoundTrip(ms: seq<(uint16, Message)>, msize: nat, unix: bool, tail: bytes)
    requires Sendable(ms, msize, unix)
    ensures var sent := Outgoing(FramesOf(ms, unix), tail);
            && Incoming(sent, msize, Decode(unix)).0 == ms + Incoming(tail, msize, Decode(unix)).0
            && Incoming(sent, msize, Decode(unix)).1 == Incoming(tail, msize, Decode(unix)).1
  {
    var frames := FramesOf(ms, unix);
    forall i | 0 <= i < |frames|
      ensures Readable(frames[i], msize) && Decode(unix)(frames[i]) == Ok(ms[i])
    {
      FrameIsReadable(ms[i].0, ms[i].1, unix, msize);
    }
    FramesArrive(frames, ms, msize, Decode(unix), tail);
  }

  /** The whole stream: the list comes back and the reader stops at the end, not before. */
  lemma WholeStream(ms: seq<(uint16, Message)>, msize: nat, unix: bool)
    requires Sendable(ms, msize, unix)
    ensures Incoming(Outgoing(FramesOf(ms, unix), []), msize, Decode(unix)) == (ms, EndOfStream)
  {
    StreamRoundTrip(ms, msize, unix, []);
    assert ms + [] == ms;
  }

  /** A frame over the limit stops the reader without being decoded: everything sent before it is
      delivered, nothing after it is. */
  lemma OversizeStops(ms: seq<(uint16, Message)>, big: (uint16, Message), msize: nat, unix: bool, tail: bytes)
    requires Sendable(ms, msize, unix)
    requires WellFormed(big.1, unix) && 0 < msize < |Frame(big.0, big.1, unix)|
    ensures var sent := Outgoing(FramesOf(ms, unix), Frame(big.0, big.1, unix) + tail);
            Incoming(sent, msize, Decode(unix)) == (ms, TooLarge)
  {
    var raw := Frame(big.0, big.1, unix);
    StreamRoundTrip(ms, msize, unix, raw + tail);
    SpanOfWidths();
    FrameParts(big.0, big.1, unix);
    FrameSize(big.0, big.1, unix);
    DecodeEncodeInt(|raw|, 4);
    assert (raw + tail)[..4] == raw[..4];
    assert ms + [] == ms;
  }
}
