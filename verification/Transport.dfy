/** Requests from one end of a connection to the other: encoded, framed, cut off
    anywhere, read back, routed by template id and decoded. */
module Transport {
  import opened Bytes
  import opened SbeFields
  import opened SbeLayout
  import opened SbeProperties
  import opened SbeMessages
  import Framing

  datatype Route = Route(template: Template) | NoRoute

  /** The request decoder that the server picks for a template id. */
  function RouteOf(id: nat): (r: Route)
    ensures r.Route? ==> r.template.Id() == id
  {
    match id
    case 20 => Route(CreateRfqRequestId)
    case 22 => Route(GetRfqRequestId)
    case 24 => Route(CancelRfqRequestId)
    case 26 => Route(ExecuteTradeRequestId)
    case 30 => Route(SubscribeQuotesRequestId)
    case 32 => Route(SubscribeRfqStatusRequestId)
    case 40 => Route(UnsubscribeRequestId)
    case _ => NoRoute
  }

  predicate IsRequest(t: Template) {
    || t.CreateRfqRequestId? || t.GetRfqRequestId? || t.CancelRfqRequestId? || t.ExecuteTradeRequestId?
    || t.SubscribeQuotesRequestId? || t.SubscribeRfqStatusRequestId? || t.UnsubscribeRequestId?
  }

  /** What the server makes of a frame. The reader skips frames shorter than a
      header; any other is routed by the id in its header. */
  function Received(frame: seq<byte>): Outcome<Message> {
    if |frame| < HEADER_SIZE then Err(BufferTooSmall(HEADER_SIZE, |frame|))
    else
      var id := FromLittleEndian(frame[2..4]);
      match RouteOf(id)
      case Route(t) => DecodedMessage(t, frame)
      case NoRoute => Err(UnknownTemplateId(id))
  }

  /** A request the client can send: it survives encoding, and its frame is
      within the limit of the reader and of the length prefix. */
  ghost predicate Sendable(m: Message, max: nat) {
    && IsRequest(TemplateOf(m)) && ValidMessage(m) && RepresentableMessage(m)
    && |Encoded(m)| <= max && Framing.Writable(Encoded(m))
  }

  ghost function Encoding(m: Message, max: nat): (payload: seq<byte>)
    requires Sendable(m, max)
    ensures |payload| <= max && Framing.Writable(payload)
  {
    Encoded(m)
  }

  ghost function Encodings(ms: seq<Message>, max: nat): (payloads: seq<seq<byte>>)
    requires forall i :: 0 <= i < |ms| ==> Sendable(ms[i], max)
    ensures |payloads| == |ms|
    ensures forall i :: 0 <= i < |ms| ==> payloads[i] == Encoding(ms[i], max)
  {
    seq(|ms|, i requires 0 <= i < |ms| => Encoding(ms[i], max))
  }

  lemma {:induction false} RoutesAreRequests(t: Template)
    ensures RouteOf(t.Id()) == if IsRequest(t) then Route(t) else NoRoute
  {
  }

  /** A frame with any other id is refused with that id, and one too short for a
      header with the size of a header. */
  lemma {:induction false} OthersRefused(frame: seq<byte>)
    ensures |frame| < 8 ==> Received(frame) == Err(BufferTooSmall(8, |frame|))
    ensures |frame| >= 8 && Two(frame, 2) !in {20, 22, 24, 26, 30, 32, 40} ==>
              Received(frame) == Err(UnknownTemplateId(Two(frame, 2)))
  {
    if |frame| >= 8 {
      TwoOctets(frame[2..4]);
    }
    hide DecodedMessage, FromLittleEndian;
  }

  /** The id in the header alone picks the right decoder, and it returns the
      request that was encoded. */
  lemma {:induction false} ReceivedAsSent(m: Message, max: nat)
    requires Sendable(m, max)
    ensures Received(Encoding(m, max)) == Ok(m)
  {
    hide *;
    SendableParts(m, max);
    var t, p := TemplateOf(m), PartsOf(m);
    TypedRoundTrip(m, []);
    assert Encoded(m) + [] == Encoded(m);
    EncodedHeader(m);
    RoutesAreRequests(t);
    ReceivedBy(t, Encoded(m));
  }

  lemma {:induction false} SendableParts(m: Message, max: nat)
    requires Sendable(m, max)
    ensures IsRequest(TemplateOf(m)) && ValidMessage(m) && RepresentableMessage(m)
    ensures Encoding(m, max) == Encoded(m)
  {
    hide PartsOf, TemplateOf, ValidMessage, RepresentableMessage, Framing.Writable, IsRequest, Encoded;
  }

  lemma {:induction false} ReceivedBy(t: Template, frame: seq<byte>)
    requires |frame| >= HEADER_SIZE && FromLittleEndian(frame[2..4]) == t.Id() && RouteOf(t.Id()) == Route(t)
    ensures Received(frame) == DecodedMessage(t, frame)
  {
    hide DecodedMessage, FromLittleEndian, RouteOf;
  }

  lemma {:induction false} EncodedHeader(m: Message)
    requires ValidMessage(m)
    ensures |Encoded(m)| >= HEADER_SIZE && FromLittleEndian(Encoded(m)[2..4]) == TemplateOf(m).Id()
  {
    hide *;
    var t, p := TemplateOf(m), PartsOf(m);
    EncodedIsMessage(m);
    var rest := Encoded(m)[HEADER_SIZE..];
    assert Encoded(m) == HeaderBytes(t) + rest;
    HeaderReadBack(t, rest);
  }

  lemma {:induction false} EncodedIsMessage(m: Message)
    requires ValidMessage(m)
    ensures HEADER_SIZE <= |Encoded(m)| && HeaderBytes(TemplateOf(m)) == Encoded(m)[..HEADER_SIZE]
  {
    hide HeaderBytes, FieldsBytes, GroupBytes, GroupHeaderBytes, PartsOf, TemplateOf, WellTypedParts;
    assert WellTypedParts(TemplateOf(m), PartsOf(m));
    var t, p := TemplateOf(m), PartsOf(m);
  }

  /** Requests written as frames, on a stream that breaks off anywhere: the
      server reads exactly those whose frames arrived completely, decodes each
      to the request that was sent, and then sees the connection closed. */
  lemma {:induction false} RequestsArrive(ms: seq<Message>, n: nat, max: nat)
    requires forall i :: 0 <= i < |ms| ==> Sendable(ms[i], max)
    requires n <= |Framing.StreamOf(Encodings(ms, max))|
    ensures var payloads := Encodings(ms, max);
            var (frames, error) := Framing.Frames(Framing.StreamOf(payloads)[..n], max);
            && error.ConnectionClosed?
            && |frames| == Framing.CompleteFrames(payloads, n)
            && forall i :: 0 <= i < |frames| ==> Received(frames[i]) == Ok(ms[i])
  {
    hide *;
    var payloads := Encodings(ms, max);
    Framing.CutStream(payloads, n, max);
    forall i | 0 <= i < |ms| ensures Received(payloads[i]) == Ok(ms[i]) {
      ReceivedAsSent(ms[i], max);
    }
  }
}
