/** Length-prefixed frames on a byte stream: four bytes of length, most
    significant first, then the payload. */
module Framing {
  import opened Bytes

  const PREFIX_SIZE: nat := 4

  datatype FrameError = ConnectionClosed | FrameTooLarge(size: nat, max: nat)

  datatype FrameResult<+T> = Ok(value: T) | Err(error: FrameError)

  // ---------------------------------------------------------------------
  // Streams
  // ---------------------------------------------------------------------

  /** The reading end of a connection. A short read uses up what is left. */
  class Source {
    var rest: seq<byte>

    constructor (bytes: seq<byte>)
      ensures rest == bytes
    {
      rest := bytes;
    }

    method ReadExact(count: nat) returns (r: FrameResult<seq<byte>>)
      modifies this
      ensures count <= |old(rest)| ==> r == Ok(old(rest)[..count]) && rest == old(rest)[count..]
      ensures count > |old(rest)| ==> r == Err(ConnectionClosed) && rest == []
    {
      if count > |rest| {
        rest := [];
        return Err(ConnectionClosed);
      }
      r := Ok(rest[..count]);
      rest := rest[count..];
    }
  }

  /** The writing end. */
  class Sink {
    var written: seq<byte>

    constructor ()
      ensures written == []
    {
      written := [];
    }

    method WriteAll(bytes: seq<byte>)
      modifies this
      ensures written == old(written) + bytes
    {
      written := written + bytes;
    }
  }

  // ---------------------------------------------------------------------
  // One frame
  // ---------------------------------------------------------------------

  /** The length of a payload fits its prefix. */
  predicate Writable(payload: seq<byte>) {
    |payload| < Pow256(PREFIX_SIZE)
  }

  function FrameBytes(payload: seq<byte>): (b: seq<byte>)
    ensures |b| == PREFIX_SIZE + |payload|
  {
    BigEndian(|payload|, PREFIX_SIZE) + payload
  }

  method WriteFrame(sink: Sink, payload: seq<byte>) returns (r: FrameResult<()>)
    modifies sink
    ensures r == if Writable(payload) then Ok(()) else Err(FrameTooLarge(|payload|, Pow256(PREFIX_SIZE) - 1))
    ensures sink.written == if Writable(payload) then old(sink.written) + FrameBytes(payload) else old(sink.written)
  {
    if !Writable(payload) {
      return Err(FrameTooLarge(|payload|, Pow256(PREFIX_SIZE) - 1));
    }
    ghost var before := sink.written;
    sink.WriteAll(BigEndian(|payload|, PREFIX_SIZE));
    sink.WriteAll(payload);
    assert before + BigEndian(|payload|, PREFIX_SIZE) + payload == before + FrameBytes(payload);
    r := Ok(());
  }

  /** What reading one frame returns. */
  function FrameOf(stream: seq<byte>, max: nat): (r: FrameResult<seq<byte>>) {
    if |stream| < PREFIX_SIZE then Err(ConnectionClosed)
    else
      var length := FromBigEndian(stream[..PREFIX_SIZE]);
      if length > max then Err(FrameTooLarge(length, max))
      else if |stream| < PREFIX_SIZE + length then Err(ConnectionClosed)
      else Ok(stream[PREFIX_SIZE..PREFIX_SIZE + length])
  }

  method ReadFrame(source: Source, max: nat) returns (r: FrameResult<seq<byte>>)
    modifies source
    ensures r == FrameOf(old(source.rest), max)
    ensures r.Ok? ==> PREFIX_SIZE + |r.value| <= |old(source.rest)|
    ensures r.Ok? ==> source.rest == old(source.rest)[PREFIX_SIZE + |r.value|..]
  {
    hide FromBigEndian, BigEndian, Pow256;
    ghost var stream := source.rest;
    var prefix := source.ReadExact(PREFIX_SIZE);
    if prefix.Err? {
      return Err(prefix.error);
    }
    var length := FromBigEndian(prefix.value);
    if length > max {
      return Err(FrameTooLarge(length, max));
    }
    r := source.ReadExact(length);
    assert r.Ok? ==> r.value == stream[PREFIX_SIZE..PREFIX_SIZE + length];
    assert r.Ok? ==> source.rest == stream[PREFIX_SIZE + length..];
  }

  // ---------------------------------------------------------------------
  // Whole streams
  // ---------------------------------------------------------------------

  /** The frames of a stream, up to the first that cannot be read, and why. */
  function Frames(stream: seq<byte>, max: nat): (r: (seq<seq<byte>>, FrameError))
    decreases |stream|
  {
    match FrameOf(stream, max)
    case Err(e) => ([], e)
    case Ok(payload) =>
      var (others, e) := Frames(stream[PREFIX_SIZE + |payload|..], max);
      ([payload] + others, e)
  }

  function StreamOf(payloads: seq<seq<byte>>): (b: seq<byte>) {
    if payloads == [] then [] else FrameBytes(payloads[0]) + StreamOf(payloads[1..])
  }

  /** The reader's loop: frames are taken until one cannot be read. */
  method ReadFrames(source: Source, max: nat) returns (payloads: seq<seq<byte>>, error: FrameError)
    modifies source
    ensures (payloads, error) == Frames(old(source.rest), max)
  {
    payloads := [];
    ghost var all := Frames(source.rest, max);
    assert [] + all.0 == all.0;
    while true
      invariant all == (payloads + Frames(source.rest, max).0, Frames(source.rest, max).1)
      decreases |source.rest|
    {
      ghost var others := Frames(source.rest, max).0;
      var frame := ReadFrame(source, max);
      if frame.Err? {
        assert payloads + [] == payloads;
        return payloads, frame.error;
      }
      assert payloads + ([frame.value] + others[1..]) == payloads + [frame.value] + others[1..];
      payloads := payloads + [frame.value];
    }
  }

  /** Writes one frame after the other. */
  method WriteFrames(sink: Sink, payloads: seq<seq<byte>>)
    requires forall i :: 0 <= i < |payloads| ==> Writable(payloads[i])
    modifies sink
    ensures sink.written == old(sink.written) + StreamOf(payloads)
  {
    ghost var before := sink.written;
    assert payloads[..0] == [] && StreamOf([]) == [] && before + [] == before;
    for i := 0 to |payloads|
      invariant sink.written == before + StreamOf(payloads[..i])
    {
      hide *;
      var written := WriteFrame(sink, payloads[i]);
      OneMoreFrame(before, payloads, i);
    }
    assert payloads[..|payloads|] == payloads;
  }

  lemma {:induction false} OneMoreFrame(before: seq<byte>, payloads: seq<seq<byte>>, i: nat)
    requires i < |payloads|
    ensures before + StreamOf(payloads[..i]) + FrameBytes(payloads[i]) == before + StreamOf(payloads[..i + 1])
  {
    hide FrameBytes, StreamOf;
    StreamAppend(payloads[..i], payloads[i]);
    assert payloads[..i + 1] == payloads[..i] + [payloads[i]];
  }

  lemma {:induction false} StreamAppend(payloads: seq<seq<byte>>, last: seq<byte>)
    ensures StreamOf(payloads + [last]) == StreamOf(payloads) + FrameBytes(last)
  {
    hide FrameBytes;
    if payloads == [] {
      assert [last][1..] == [];
    } else {
      StreamAppend(payloads[1..], last);
      assert (payloads + [last])[1..] == payloads[1..] + [last];
    }
  }

  /** The bytes of a frame: the length of the payload in four bytes, the most
      significant first, and then the payload. */
  lemma {:induction false} FrameOctets(payload: seq<byte>)
    requires Writable(payload)
    ensures var b := FrameBytes(payload);
            |b| == 4 + |payload| && FourFromFront(b) == |payload| && b[4..] == payload
  {
    BigEndianRoundTrip(|payload|, 4);
    FourOctets(BigEndian(|payload|, 4));
    hide BigEndian, FromBigEndian;
    assert FrameBytes(payload)[..4] == BigEndian(|payload|, 4);
  }

  /** Reading one frame: a length over the limit is refused as soon as the four
      bytes are there, and anything that is not there is a closed connection. */
  lemma {:induction false} FrameRead(stream: seq<byte>, max: nat)
    ensures FrameOf(stream, max) ==
            if |stream| < 4 then Err(ConnectionClosed)
            else if FourFromFront(stream) > max then Err(FrameTooLarge(FourFromFront(stream), max))
            else if |stream| - 4 < FourFromFront(stream) then Err(ConnectionClosed)
            else Ok(stream[4..4 + FourFromFront(stream)])
  {
    if |stream| >= 4 {
      FourOctets(stream[..4]);
    }
    hide FromBigEndian;
  }

  /** A frame reads back as its payload, whatever follows it. */
  lemma {:induction false} FrameRoundTrip(payload: seq<byte>, post: seq<byte>, max: nat)
    requires Writable(payload)
    ensures FrameOf(FrameBytes(payload) + post, max) ==
            if |payload| <= max then Ok(payload) else Err(FrameTooLarge(|payload|, max))
  {
    hide BigEndian, FromBigEndian, Pow256;
    var prefix := BigEndian(|payload|, PREFIX_SIZE);
    var stream := FrameBytes(payload) + post;
    BigEndianRoundTrip(|payload|, PREFIX_SIZE);
    assert stream[..PREFIX_SIZE] == prefix;
    assert stream[PREFIX_SIZE..PREFIX_SIZE + |payload|] == payload;
  }

  /** A frame cut short reads as a closed connection. */
  lemma {:induction false} CutFrame(payload: seq<byte>, n: nat, max: nat)
    requires Writable(payload) && |payload| <= max && n < PREFIX_SIZE + |payload|
    ensures FrameOf(FrameBytes(payload)[..n], max) == Err(ConnectionClosed)
  {
    hide BigEndian, FromBigEndian, Pow256;
    BigEndianRoundTrip(|payload|, PREFIX_SIZE);
    if n >= PREFIX_SIZE {
      assert FrameBytes(payload)[..n][..PREFIX_SIZE] == BigEndian(|payload|, PREFIX_SIZE);
    }
  }

  /** How many of the frames lie completely within the first n bytes. */
  function CompleteFrames(payloads: seq<seq<byte>>, n: nat): (k: nat)
    ensures k <= |payloads|
    ensures |StreamOf(payloads[..k])| <= n
    ensures k < |payloads| ==> n < |StreamOf(payloads[..k + 1])|
  {
    if payloads == [] || n < |FrameBytes(payloads[0])| then
      assert payloads != [] ==> payloads[..1][1..] == [];
      0
    else
      var k := CompleteFrames(payloads[1..], n - |FrameBytes(payloads[0])|);
      assert payloads[..k + 1][1..] == payloads[1..][..k];
      assert k + 1 < |payloads| ==> payloads[..k + 2][1..] == payloads[1..][..k + 1];
      k + 1
  }

  /** A stream cut anywhere yields exactly the frames completely before the cut,
      and then a closed connection. Uncut, it yields all of them. */
  lemma {:induction false} CutStream(payloads: seq<seq<byte>>, n: nat, max: nat)
    requires forall i :: 0 <= i < |payloads| ==> Writable(payloads[i]) && |payloads[i]| <= max
    requires n <= |StreamOf(payloads)|
    ensures Frames(StreamOf(payloads)[..n], max) == (payloads[..CompleteFrames(payloads, n)], ConnectionClosed)
  {
    hide FrameBytes, FrameOf, Writable;
    var cut := StreamOf(payloads)[..n];
    if payloads == [] {
      EmptyStream(max);
      assert cut == [];
    } else {
      var head, tail := FrameBytes(payloads[0]), StreamOf(payloads[1..]);
      if n < |head| {
        assert cut == head[..n];
        CutFrame(payloads[0], n, max);
      } else {
        assert cut == head + tail[..n - |head|];
        FrameRoundTrip(payloads[0], tail[..n - |head|], max);
        assert cut[|head|..] == tail[..n - |head|];
        CutStream(payloads[1..], n - |head|, max);
        var k := CompleteFrames(payloads[1..], n - |head|);
        assert payloads[..k + 1] == [payloads[0]] + payloads[1..][..k];
      }
    }
  }

  lemma {:induction false} EmptyStream(max: nat)
    ensures FrameOf([], max) == Err(ConnectionClosed)
  {
  }

  /** How many frames come before the first one that is over the limit. */
  function BeforeTooLarge(payloads: seq<seq<byte>>, max: nat): (k: nat)
    ensures k <= |payloads|
    ensures forall i :: 0 <= i < k ==> |payloads[i]| <= max
    ensures k < |payloads| ==> |payloads[k]| > max
  {
    if payloads == [] || |payloads[0]| > max then 0 else 1 + BeforeTooLarge(payloads[1..], max)
  }

  /** What was written is read back, up to the first payload over the reader's
      limit: the reader ends there and says how long it was. */
  lemma {:induction false} StreamRoundTrip(payloads: seq<seq<byte>>, max: nat)
    requires forall i :: 0 <= i < |payloads| ==> Writable(payloads[i])
    ensures var k := BeforeTooLarge(payloads, max);
            Frames(StreamOf(payloads), max) ==
            (payloads[..k], if k < |payloads| then FrameTooLarge(|payloads[k]|, max) else ConnectionClosed)
  {
    hide FrameBytes, FrameOf, Writable, Pow256, BigEndian, FromBigEndian;
    if payloads == [] {
      EmptyStream(max);
    } else {
      var head, tail := FrameBytes(payloads[0]), StreamOf(payloads[1..]);
      FrameRoundTrip(payloads[0], tail, max);
      if |payloads[0]| <= max {
        assert StreamOf(payloads) == head + tail && (head + tail)[|head|..] == tail;
        StreamRoundTrip(payloads[1..], max);
        var k := BeforeTooLarge(payloads[1..], max);
        assert payloads[..k + 1] == [payloads[0]] + payloads[1..][..k];
      }
    }
  }
}
