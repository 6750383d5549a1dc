/** The fourteen message types as typed values, and their fields in the order in
    which they go on the wire. */
module SbeMessages {
  import Domain
  import opened Bytes
  import opened SbeFields
  import opened SbeLayout
  import opened SbeBuffers
  import opened SbeProperties

  datatype AssetClass = CryptoSpot | CryptoDerivs | Stock | Forex | Commodity
  datatype VenueType = InternalMM | ExternalMM | DexAggregator | Protocol | RfqProtocol
  datatype RfqState =
    | Created | QuoteRequesting | QuotesReceived | ClientSelecting | Executing
    | Executed | Failed | Cancelled | Expired | Negotiating

  function SideCode(s: Domain.OrderSide): nat { if s == Domain.Buy then 0 else 1 }

  function SideOf(code: nat): Domain.OrderSide
    requires code < 2
  {
    if code == 0 then Domain.Buy else Domain.Sell
  }

  function AssetCode(a: AssetClass): nat {
    match a case CryptoSpot => 0 case CryptoDerivs => 1 case Stock => 2 case Forex => 3 case Commodity => 4
  }

  function AssetOf(code: nat): AssetClass
    requires code < 5
  {
    [CryptoSpot, CryptoDerivs, Stock, Forex, Commodity][code]
  }

  function VenueCode(v: VenueType): nat {
    match v case InternalMM => 0 case ExternalMM => 1 case DexAggregator => 2 case Protocol => 3 case RfqProtocol => 4
  }

  function VenueOf(code: nat): VenueType
    requires code < 5
  {
    [InternalMM, ExternalMM, DexAggregator, Protocol, RfqProtocol][code]
  }

  function StateCode(s: RfqState): nat {
    match s
    case Created => 0 case QuoteRequesting => 1 case QuotesReceived => 2 case ClientSelecting => 3
    case Executing => 4 case Executed => 5 case Failed => 6 case Cancelled => 7 case Expired => 8
    case Negotiating => 9
  }

  function StateOf(code: nat): RfqState
    requires code < 10
  {
    [Created, QuoteRequesting, QuotesReceived, ClientSelecting, Executing, Executed, Failed, Cancelled, Expired, Negotiating][code]
  }

  type Id = seq<byte>       // a UUID: 16 bytes
  type Str = seq<byte>      // UTF-8
  type Instant = int        // nanoseconds since the epoch

  datatype Dec = Dec(mantissa: int, scale: nat)

  datatype QuoteEntry = QuoteEntry(
    quoteId: Id, price: Dec, quantity: Dec, commission: Dec,
    validUntil: Instant, createdAt: Instant, venueType: VenueType, venueId: Str)

  datatype Message =
    | CreateRfqRequest(requestId: Id, clientId: Str, symbol: Str, baseAsset: Str, quoteAsset: Str,
                       side: Domain.OrderSide, quantity: Dec, timeoutSeconds: int, assetClass: AssetClass)
    | GetRfqRequest(requestId: Id, rfqId: Id)
    | CancelRfqRequest(requestId: Id, rfqId: Id, reason: Str)
    | ExecuteTradeRequest(rfqId: Id, quoteId: Id)
    | SubscribeQuotesRequest(rfqId: Id)
    | SubscribeRfqStatusRequest(rfqId: Id)
    | UnsubscribeRequest(rfqId: Id)
    | RfqResponse(template: Template, requestId: Id, rfqId: Id, side: Domain.OrderSide, quantity: Dec, state: RfqState,
                  expiresAt: Instant, createdAt: Instant, updatedAt: Instant, assetClass: AssetClass,
                  selectedQuoteId: Id, quotes: seq<QuoteEntry>,
                  clientId: Str, symbol: Str, baseAsset: Str, quoteAsset: Str)
    | ExecuteTradeResponse(tradeId: Id, rfqId: Id, quoteId: Id, price: Dec, quantity: Dec, createdAt: Instant,
                           venueId: Str, venueExecutionRef: Str)
    | QuoteUpdate(quoteId: Id, rfqId: Id, price: Dec, quantity: Dec, commission: Dec, validUntil: Instant,
                  createdAt: Instant, venueType: VenueType, isFinal: bool, venueId: Str)
    | RfqStatusUpdate(rfqId: Id, previousState: RfqState, currentState: RfqState, timestamp: Instant, message: Str)
    | ErrorResponse(requestId: Id, rfqId: Id, code: int, message: Str, metadata: Str)

  function TemplateOf(m: Message): Template {
    match m
    case CreateRfqRequest(_, _, _, _, _, _, _, _, _) => CreateRfqRequestId
    case GetRfqRequest(_, _) => GetRfqRequestId
    case CancelRfqRequest(_, _, _) => CancelRfqRequestId
    case ExecuteTradeRequest(_, _) => ExecuteTradeRequestId
    case SubscribeQuotesRequest(_) => SubscribeQuotesRequestId
    case SubscribeRfqStatusRequest(_) => SubscribeRfqStatusRequestId
    case UnsubscribeRequest(_) => UnsubscribeRequestId
    case RfqResponse(t, _, _, _, _, _, _, _, _, _, _, _, _, _, _, _) => t
    case ExecuteTradeResponse(_, _, _, _, _, _, _, _) => ExecuteTradeResponseId
    case QuoteUpdate(_, _, _, _, _, _, _, _, _, _) => QuoteUpdateId
    case RfqStatusUpdate(_, _, _, _, _) => RfqStatusUpdateId
    case ErrorResponse(_, _, _, _, _) => ErrorResponseId
  }

  function Amount(d: Dec): Value { Decimal(d.mantissa, d.scale) }

  function DecOf(v: Value): Dec
    requires v.Decimal?
  {
    Dec(v.mantissa, v.scale)
  }

  function EntryValues(q: QuoteEntry): (vs: seq<Value>) {
    [Uuid(q.quoteId), Amount(q.price), Amount(q.quantity), Amount(q.commission), Time(q.validUntil), Time(q.createdAt),
     Code(VenueCode(q.venueType)), Text(q.venueId)]
  }

  function EntryOf(vs: seq<Value>): QuoteEntry
    requires WellTypedAll(QUOTE_KINDS, vs)
  {
    QuoteEntry(vs[0].octets, DecOf(vs[1]), DecOf(vs[2]), DecOf(vs[3]), vs[4].nanos, vs[5].nanos, VenueOf(vs[6].code), vs[7].utf8)
  }

  function QuotesValues(quotes: seq<QuoteEntry>): (group: seq<seq<Value>>) {
    seq(|quotes|, i requires 0 <= i < |quotes| => EntryValues(quotes[i]))
  }

  function QuotesOf(group: seq<seq<Value>>): (quotes: seq<QuoteEntry>)
    requires WellTypedGroup(group)
  {
    seq(|group|, i requires 0 <= i < |group| => EntryOf(group[i]))
  }

  /** A message as the values of its layout, in wire order. */
  function PartsOf(m: Message): Parts {
    match m
    case CreateRfqRequest(request, client, symbol, base, quote, side, quantity, timeout, asset) =>
      Parts([Uuid(request), Code(SideCode(side)), Amount(quantity), Int(timeout), Code(AssetCode(asset))], [],
            [Text(client), Text(symbol), Text(base), Text(quote)])
    case GetRfqRequest(request, rfq) => Parts([Uuid(request), Uuid(rfq)], [], [])
    case CancelRfqRequest(request, rfq, reason) => Parts([Uuid(request), Uuid(rfq)], [], [Text(reason)])
    case ExecuteTradeRequest(rfq, quote) => Parts([Uuid(rfq), Uuid(quote)], [], [])
    case SubscribeQuotesRequest(rfq) => Parts([Uuid(rfq)], [], [])
    case SubscribeRfqStatusRequest(rfq) => Parts([Uuid(rfq)], [], [])
    case UnsubscribeRequest(rfq) => Parts([Uuid(rfq)], [], [])
    case RfqResponse(_, request, rfq, side, quantity, state, expires, created, updated, asset, selected, quotes, client, symbol, base, quote) =>
      Parts([Uuid(request), Uuid(rfq), Code(SideCode(side)), Amount(quantity), Code(StateCode(state)), Time(expires),
             Time(created), Time(updated), Code(AssetCode(asset)), Uuid(selected)],
            QuotesValues(quotes),
            [Text(client), Text(symbol), Text(base), Text(quote)])
    case ExecuteTradeResponse(trade, rfq, quote, price, quantity, created, venue, reference) =>
      Parts([Uuid(trade), Uuid(rfq), Uuid(quote), Amount(price), Amount(quantity), Time(created)], [],
            [Text(venue), Text(reference)])
    case QuoteUpdate(quote, rfq, price, quantity, commission, valid, created, venueType, final, venue) =>
      Parts([Uuid(quote), Uuid(rfq), Amount(price), Amount(quantity), Amount(commission), Time(valid), Time(created),
             Code(VenueCode(venueType)), Flag(final)], [], [Text(venue)])
    case RfqStatusUpdate(rfq, previous, current, time, message) =>
      Parts([Uuid(rfq), Code(StateCode(previous)), Code(StateCode(current)), Time(time)], [], [Text(message)])
    case ErrorResponse(request, rfq, code, message, metadata) =>
      Parts([Uuid(request), Uuid(rfq), Int(code)], [], [Text(message), Text(metadata)])
  }

  function ResponseOf(t: Template, p: Parts): (m: Message)
    requires WellTypedParts(t, p) && t.IsRfqResponse()
    ensures m.RfqResponse? && m.template == t
  {
    var f, x := p.fixed, p.tail;
    RfqResponse(t, f[0].octets, f[1].octets, SideOf(f[2].code), DecOf(f[3]), StateOf(f[4].code), f[5].nanos, f[6].nanos,
                f[7].nanos, AssetOf(f[8].code), f[9].octets, QuotesOf(p.group), x[0].utf8, x[1].utf8, x[2].utf8, x[3].utf8)
  }

  /** The message that a decoder builds from the values it has read. */
  function MessageOf(t: Template, p: Parts): Message
    requires WellTypedParts(t, p)
  {
    var f, x := p.fixed, p.tail;
    match t
    case CreateRfqRequestId =>
      CreateRfqRequest(f[0].octets, x[0].utf8, x[1].utf8, x[2].utf8, x[3].utf8, SideOf(f[1].code), DecOf(f[2]), f[3].i, AssetOf(f[4].code))
    case GetRfqRequestId => GetRfqRequest(f[0].octets, f[1].octets)
    case CancelRfqRequestId => CancelRfqRequest(f[0].octets, f[1].octets, x[0].utf8)
    case ExecuteTradeRequestId => ExecuteTradeRequest(f[0].octets, f[1].octets)
    case SubscribeQuotesRequestId => SubscribeQuotesRequest(f[0].octets)
    case SubscribeRfqStatusRequestId => SubscribeRfqStatusRequest(f[0].octets)
    case UnsubscribeRequestId => UnsubscribeRequest(f[0].octets)
    case ExecuteTradeResponseId =>
      ExecuteTradeResponse(f[0].octets, f[1].octets, f[2].octets, DecOf(f[3]), DecOf(f[4]), f[5].nanos, x[0].utf8, x[1].utf8)
    case QuoteUpdateId =>
      QuoteUpdate(f[0].octets, f[1].octets, DecOf(f[2]), DecOf(f[3]), DecOf(f[4]), f[5].nanos, f[6].nanos,
                  VenueOf(f[7].code), f[8].on, x[0].utf8)
    case RfqStatusUpdateId =>
      RfqStatusUpdate(f[0].octets, StateOf(f[1].code), StateOf(f[2].code), f[3].nanos, x[0].utf8)
    case ErrorResponseId => ErrorResponse(f[0].octets, f[1].octets, f[2].i, x[0].utf8, x[1].utf8)
    case _ => ResponseOf(t, p)
  }

  /** The message holds what its field types allow. */
  ghost predicate ValidMessage(m: Message) {
    (m.RfqResponse? ==> m.template.IsRfqResponse()) && WellTypedParts(TemplateOf(m), PartsOf(m))
  }

  predicate RepresentableMessage(m: Message) {
    RepresentableParts(PartsOf(m))
  }

  lemma {:induction false} EntryInverse(q: QuoteEntry)
    requires WellTypedAll(QUOTE_KINDS, EntryValues(q))
    ensures EntryOf(EntryValues(q)) == q
  {
  }

  lemma {:induction false} EntryValuesInverse(vs: seq<Value>)
    requires WellTypedAll(QUOTE_KINDS, vs)
    ensures EntryValues(EntryOf(vs)) == vs
  {
    hide ValidUtf8, Fits, Pow256;
    assert forall i :: 0 <= i < 8 ==> WellTyped(QUOTE_KINDS[i], vs[i]);
  }

  lemma {:induction false} QuotesInverse(quotes: seq<QuoteEntry>)
    requires WellTypedGroup(QuotesValues(quotes))
    ensures QuotesOf(QuotesValues(quotes)) == quotes
  {
    hide EntryOf, EntryValues, WellTypedAll;
    forall i | 0 <= i < |quotes| ensures EntryOf(QuotesValues(quotes)[i]) == quotes[i] {
      assert QuotesValues(quotes)[i] == EntryValues(quotes[i]);
      EntryInverse(quotes[i]);
    }
  }

  lemma {:induction false} QuotesValuesInverse(group: seq<seq<Value>>)
    requires WellTypedGroup(group)
    ensures QuotesValues(QuotesOf(group)) == group
  {
    hide EntryOf, EntryValues, WellTypedAll;
    forall i | 0 <= i < |group| ensures EntryValues(EntryOf(group[i])) == group[i] {
      EntryValuesInverse(group[i]);
    }
  }

  /** Taking a message apart and building it are inverse to each other. */
  lemma {:induction false} PartsInverse(m: Message)
    requires ValidMessage(m)
    ensures MessageOf(TemplateOf(m), PartsOf(m)) == m
  {
    hide *;
    if m.RfqResponse? {
      ResponseRebuilt(m);
    } else {
      OtherRebuilt(m);
    }
  }

  lemma {:induction false} OtherRebuilt(m: Message)
    requires ValidMessage(m) && !m.RfqResponse?
    ensures MessageOf(TemplateOf(m), PartsOf(m)) == m
  {
    hide QuotesOf, QuotesValues, WellTyped, WellTypedAll, WellTypedGroup, WellTypedParts, FixedKinds, TailKinds, ResponseOf;
  }

  lemma {:induction false} ResponseRebuilt(m: Message)
    requires ValidMessage(m) && m.RfqResponse?
    ensures MessageOf(TemplateOf(m), PartsOf(m)) == m
  {
    QuotesInverse(m.quotes);
    assert MessageOf(TemplateOf(m), PartsOf(m)) == ResponseOf(m.template, PartsOf(m)) by {
      hide ResponseOf;
    }
    hide MessageOf, QuotesOf, QuotesValues, WellTyped, WellTypedAll, WellTypedParts, FixedKinds, TailKinds;
  }

  lemma {:induction false} MessageInverse(t: Template, p: Parts)
    requires WellTypedParts(t, p)
    ensures TemplateOf(MessageOf(t, p)) == t && PartsOf(MessageOf(t, p)) == p
  {
    hide *;
    if t.IsRfqResponse() {
      ResponseInverse(t, p);
    } else if t.CreateRfqRequestId? {
      RequestInverse(t, p);
    } else if t.QuoteUpdateId? || t.ExecuteTradeResponseId? {
      UpdateInverse(t, p);
    } else if t.RfqStatusUpdateId? {
      StatusInverse(t, p);
    } else if t.ErrorResponseId? || t.CancelRfqRequestId? {
      PlainInverse(t, p);
    } else {
      IdsInverse(t, p);
    }
  }

  lemma {:induction false} ResponseInverse(t: Template, p: Parts)
    requires WellTypedParts(t, p) && t.IsRfqResponse()
    ensures TemplateOf(MessageOf(t, p)) == t && PartsOf(MessageOf(t, p)) == p
  {
    assert MessageOf(t, p) == ResponseOf(t, p) by {
      hide WellTypedParts, ResponseOf;
    }
    ResponsePartsInverse(t, p);
    hide MessageOf, ResponseOf, PartsOf, WellTypedParts;
  }

  lemma {:induction false} ResponsePartsInverse(t: Template, p: Parts)
    requires WellTypedParts(t, p) && t.IsRfqResponse()
    ensures PartsOf(ResponseOf(t, p)) == p
  {
    hide *;
    ResponseFields(t, p);
    QuotesOfGroup(t, p);
    ResponseParts(t, p);
  }

  lemma {:induction false} QuotesOfGroup(t: Template, p: Parts)
    requires WellTypedParts(t, p)
    ensures WellTypedGroup(p.group) && QuotesValues(QuotesOf(p.group)) == p.group
  {
    QuotesValuesInverse(p.group);
  }

  lemma {:induction false} ResponseParts(t: Template, p: Parts)
    requires WellTypedParts(t, p) && t.IsRfqResponse()
    requires |p.fixed| == 10 && |p.tail| == 4
    requires p.fixed[0].Uuid? && p.fixed[1].Uuid? && p.fixed[9].Uuid?
    requires p.fixed[2].Code? && p.fixed[2].code < 2 && p.fixed[4].Code? && p.fixed[4].code < 10
    requires p.fixed[8].Code? && p.fixed[8].code < 5
    requires p.fixed[3].Decimal? && p.fixed[5].Time? && p.fixed[6].Time? && p.fixed[7].Time?
    requires forall i :: 0 <= i < 4 ==> p.tail[i].Text?
    requires WellTypedGroup(p.group) && QuotesValues(QuotesOf(p.group)) == p.group
    ensures PartsOf(ResponseOf(t, p)) == p
  {
    hide MessageOf, WellTypedParts, WellTypedGroup, QuotesOf, QuotesValues;
  }

  lemma {:induction false} ResponseFields(t: Template, p: Parts)
    requires WellTypedParts(t, p) && t.IsRfqResponse()
    ensures |p.fixed| == 10 && |p.tail| == 4
    ensures p.fixed[0].Uuid? && p.fixed[1].Uuid? && p.fixed[9].Uuid?
    ensures p.fixed[2].Code? && p.fixed[2].code < 2 && p.fixed[4].Code? && p.fixed[4].code < 10
    ensures p.fixed[8].Code? && p.fixed[8].code < 5
    ensures p.fixed[3].Decimal? && p.fixed[5].Time? && p.fixed[6].Time? && p.fixed[7].Time?
    ensures forall i :: 0 <= i < 4 ==> p.tail[i].Text?
  {
    hide ValidUtf8, Fits, Pow256, ResponseOf;
    assert forall i :: 0 <= i < |p.fixed| ==> WellTyped(FixedKinds(t)[i], p.fixed[i]);
    assert forall i :: 0 <= i < |p.tail| ==> WellTyped(TailKinds(t)[i], p.tail[i]);
  }

  lemma {:induction false} RequestInverse(t: Template, p: Parts)
    requires WellTypedParts(t, p) && t.CreateRfqRequestId?
    ensures TemplateOf(MessageOf(t, p)) == t && PartsOf(MessageOf(t, p)) == p
  {
    hide ValidUtf8, Fits, Pow256, ResponseOf;
    assert forall i :: 0 <= i < |p.fixed| ==> WellTyped(FixedKinds(t)[i], p.fixed[i]);
    assert forall i :: 0 <= i < |p.tail| ==> WellTyped(TailKinds(t)[i], p.tail[i]);
  }

  lemma {:induction false} UpdateInverse(t: Template, p: Parts)
    requires WellTypedParts(t, p) && (t.QuoteUpdateId? || t.ExecuteTradeResponseId?)
    ensures TemplateOf(MessageOf(t, p)) == t && PartsOf(MessageOf(t, p)) == p
  {
    hide ValidUtf8, Fits, Pow256, ResponseOf;
    assert forall i :: 0 <= i < |p.fixed| ==> WellTyped(FixedKinds(t)[i], p.fixed[i]);
    assert forall i :: 0 <= i < |p.tail| ==> WellTyped(TailKinds(t)[i], p.tail[i]);
  }

  lemma {:induction false} PlainInverse(t: Template, p: Parts)
    requires WellTypedParts(t, p) && (t.ErrorResponseId? || t.CancelRfqRequestId?)
    ensures TemplateOf(MessageOf(t, p)) == t && PartsOf(MessageOf(t, p)) == p
  {
    hide ValidUtf8, Fits, Pow256, ResponseOf;
    assert forall i :: 0 <= i < |p.fixed| ==> WellTyped(FixedKinds(t)[i], p.fixed[i]);
    assert forall i :: 0 <= i < |p.tail| ==> WellTyped(TailKinds(t)[i], p.tail[i]);
  }

  lemma {:induction false} StatusInverse(t: Template, p: Parts)
    requires WellTypedParts(t, p) && t.RfqStatusUpdateId?
    ensures TemplateOf(MessageOf(t, p)) == t && PartsOf(MessageOf(t, p)) == p
  {
    hide ValidUtf8, Fits, Pow256, ResponseOf;
    assert forall i :: 0 <= i < |p.fixed| ==> WellTyped(FixedKinds(t)[i], p.fixed[i]);
    assert forall i :: 0 <= i < |p.tail| ==> WellTyped(TailKinds(t)[i], p.tail[i]);
  }

  /** The messages that hold ids only. */
  lemma {:induction false} IdsInverse(t: Template, p: Parts)
    requires WellTypedParts(t, p) && !t.IsRfqResponse() && !t.CreateRfqRequestId?
    requires !t.QuoteUpdateId? && !t.ExecuteTradeResponseId?
    requires !t.RfqStatusUpdateId? && !t.ErrorResponseId? && !t.CancelRfqRequestId?
    ensures TemplateOf(MessageOf(t, p)) == t && PartsOf(MessageOf(t, p)) == p
  {
    hide ValidUtf8, Fits, Pow256, ResponseOf;
    assert forall i :: 0 <= i < |p.fixed| ==> WellTyped(FixedKinds(t)[i], p.fixed[i]);
  }

  // ---------------------------------------------------------------------
  // The typed codec
  // ---------------------------------------------------------------------

  /** `encode_to_vec`. */
  method EncodeToVec(m: Message) returns (r: Outcome<seq<byte>>)
    requires ValidMessage(m)
    ensures r == if EncodeError(PartsOf(m)).Ok? then Ok(Encoded(m)) else Err(EncodeError(PartsOf(m)).error)
  {
    hide *;
    EncodedShape(m);
    EncodeErrorIsError(PartsOf(m));
    var size := EncodedSize(TemplateOf(m), PartsOf(m));
    var buffer := new byte[size](_ => 0);
    assert buffer[size..] == [];
    var done := EncodeInto(TemplateOf(m), PartsOf(m), buffer);
    if done.Err? {
      return Err(done.error);
    }
    assert buffer[..] == Encoded(m) + [] == Encoded(m);
    r := Ok(buffer[..]);
  }

  lemma {:induction false} EncodedShape(m: Message)
    requires ValidMessage(m)
    ensures WellTypedParts(TemplateOf(m), PartsOf(m))
    ensures Encoded(m) == MessageBytes(TemplateOf(m), PartsOf(m))
    ensures var size := EncodedSize(TemplateOf(m), PartsOf(m));
            EncodeOutcome(TemplateOf(m), PartsOf(m), size)
            == if EncodeError(PartsOf(m)).Ok? then Ok(size) else Err(EncodeError(PartsOf(m)).error)
    ensures |PartsOf(m).tail| == TailCount(TemplateOf(m))
    ensures forall i :: 0 <= i < |PartsOf(m).group| ==> |PartsOf(m).group[i]| == |QUOTE_KINDS|
  {
  }

  ghost function Encoded(m: Message): seq<byte>
    requires ValidMessage(m)
  {
    MessageBytes(TemplateOf(m), PartsOf(m))
  }

  method Decode(t: Template, buffer: seq<byte>) returns (r: Outcome<Message>)
    ensures r == DecodedMessage(t, buffer)
  {
    var parts := DecodeFrom(t, buffer);
    if parts.IsFailure() {
      return parts.PropagateFailure();
    }
    MessageYields(t, buffer);
    r := Ok(MessageOf(t, parts.value));
  }

  function DecodedMessage(t: Template, b: seq<byte>): Outcome<Message> {
    var r := ReadMessage(t, b);
    if r.IsFailure() then r.PropagateFailure()
    else
      MessageYields(t, b);
      Ok(MessageOf(t, r.value.0))
  }

  /** Decoding an encoded message, followed by anything, gives it back exactly
      when it is representable. */
  lemma {:induction false} TypedRoundTrip(m: Message, post: seq<byte>)
    requires ValidMessage(m)
    ensures (EncodeError(PartsOf(m)).Ok? && DecodedMessage(TemplateOf(m), Encoded(m) + post) == Ok(m)) <==> RepresentableMessage(m)
  {
    hide MessageBytes, WellTypedParts, MessageOf, PartsOf, TemplateOf, ReadMessage, EncodeError, RepresentableParts, CarriedParts;
    var t, p := TemplateOf(m), PartsOf(m);
    PartsInverse(m);
    RepresentableIsBoth(t, p);
    if CarriedParts(p) {
      MessageRoundTrip(t, p, post);
    }
    if DecodedMessage(t, Encoded(m) + post) == Ok(m) {
      MessageYields(t, Encoded(m) + post);
      MessageInverse(t, ReadMessage(t, Encoded(m) + post).value.0);
    }
  }

  /** Whatever bytes decode, the message they decode to is valid and of the
      type asked for. */
  lemma {:induction false} DecodedIsValid(t: Template, b: seq<byte>)
    requires DecodedMessage(t, b).Ok?
    ensures ValidMessage(DecodedMessage(t, b).value)
    ensures TemplateOf(DecodedMessage(t, b).value) == t
  {
    hide ReadMessage, MessageOf, PartsOf, WellTypedParts;
    MessageYields(t, b);
    MessageInverse(t, ReadMessage(t, b).value.0);
    if DecodedMessage(t, b).value.RfqResponse? {
      OnlyResponsesAreResponses(t, ReadMessage(t, b).value.0);
    }
  }

  lemma {:induction false} OnlyResponsesAreResponses(t: Template, p: Parts)
    requires WellTypedParts(t, p) && MessageOf(t, p).RfqResponse?
    ensures t.IsRfqResponse() && MessageOf(t, p).template == t
  {
  }

  // ---------------------------------------------------------------------
  // Encoding what was decoded
  // ---------------------------------------------------------------------

  predicate NoNegativeTimestamp(m: Message) {
    && (m.RfqResponse? ==>
          && m.expiresAt >= 0 && m.createdAt >= 0 && m.updatedAt >= 0
          && forall i :: 0 <= i < |m.quotes| ==> m.quotes[i].validUntil >= 0 && m.quotes[i].createdAt >= 0)
    && (m.ExecuteTradeResponse? ==> m.createdAt >= 0)
    && (m.QuoteUpdate? ==> m.validUntil >= 0 && m.createdAt >= 0)
    && (m.RfqStatusUpdate? ==> m.timestamp >= 0)
  }

  predicate InRange(t: Instant) {
    0 <= t < 0x8000_0000_0000_0000
  }

  /** The timestamps of the fixed block. */
  function BlockTimes(m: Message): seq<Instant> {
    match m
    case RfqResponse(_, _, _, _, _, _, expires, created, updated, _, _, _, _, _, _, _) => [expires, created, updated]
    case ExecuteTradeResponse(_, _, _, _, _, created, _, _) => [created]
    case QuoteUpdate(_, _, _, _, _, valid, created, _, _, _) => [valid, created]
    case RfqStatusUpdate(_, _, _, time, _) => [time]
    case _ => []
  }

  /** Encoding fails for a timestamp before the epoch or beyond 64 bits, and for
      more quotes than the group can count; the fixed block comes first. */
  lemma {:induction false} EncodeRefusals(m: Message)
    ensures EncodeError(PartsOf(m)) ==
            if exists i :: 0 <= i < |BlockTimes(m)| && !InRange(BlockTimes(m)[i]) then Err(InvalidTimestamp)
            else if m.RfqResponse? && |m.quotes| > 65535 then Err(InvalidFieldValue)
            else if m.RfqResponse? && exists i :: 0 <= i < |m.quotes| && !(InRange(m.quotes[i].validUntil) && InRange(m.quotes[i].createdAt))
              then Err(InvalidTimestamp)
            else Ok(())
  {
    BlockRefusals(m);
    EntriesRefusals(m);
    hide EncodableAll, EncodableGroup, PartsOf, BlockTimes, InRange;
  }

  lemma {:induction false} BlockRefusals(m: Message)
    ensures EncodableAll(PartsOf(m).fixed) <==> forall i :: 0 <= i < |BlockTimes(m)| ==> InRange(BlockTimes(m)[i])
    ensures |PartsOf(m).group| == if m.RfqResponse? then |m.quotes| else 0
  {
    PowValues();
    hide Pow256;
    var f := PartsOf(m).fixed;
    match m
    case RfqResponse(_, _, _, _, _, _, expires, created, updated, _, _, _, _, _, _, _) =>
      assert f[5] == Time(expires) && f[6] == Time(created) && f[7] == Time(updated);
      assert BlockTimes(m)[0] == expires && BlockTimes(m)[1] == created && BlockTimes(m)[2] == updated;
    case ExecuteTradeResponse(_, _, _, _, _, created, _, _) => assert f[5] == Time(created) && BlockTimes(m)[0] == created;
    case QuoteUpdate(_, _, _, _, _, valid, created, _, _, _) =>
      assert f[5] == Time(valid) && f[6] == Time(created) && BlockTimes(m)[0] == valid && BlockTimes(m)[1] == created;
    case RfqStatusUpdate(_, _, _, time, _) => assert f[3] == Time(time) && BlockTimes(m)[0] == time;
    case _ =>
  }

  lemma {:induction false} EntriesRefusals(m: Message)
    ensures EncodableGroup(PartsOf(m).group) <==>
            !(m.RfqResponse? && exists i :: 0 <= i < |m.quotes| && !(InRange(m.quotes[i].validUntil) && InRange(m.quotes[i].createdAt)))
  {
    hide EntryValues, EncodableAll, InRange;
    if m.RfqResponse? {
      forall i | 0 <= i < |m.quotes|
        ensures EncodableAll(PartsOf(m).group[i]) <==> InRange(m.quotes[i].validUntil) && InRange(m.quotes[i].createdAt)
      {
        EntryRefusals(m.quotes[i]);
      }
      assert |PartsOf(m).group| == |m.quotes|;
    }
  }

  lemma {:induction false} EntryRefusals(q: QuoteEntry)
    ensures EncodableAll(EntryValues(q)) <==> InRange(q.validUntil) && InRange(q.createdAt)
  {
    PowValues();
    hide Pow256;
    var vs := EntryValues(q);
    assert vs[4] == Time(q.validUntil) && vs[5] == Time(q.createdAt);
  }

  lemma {:induction false} EntryTimes(q: QuoteEntry)
    ensures NoNegativeTime(EntryValues(q)) <==> q.validUntil >= 0 && q.createdAt >= 0
  {
    var vs := EntryValues(q);
    assert vs[4].Time? && vs[5].Time?;
  }

  lemma {:induction false} TimesOfParts(m: Message)
    ensures NoNegativeTimestamp(m) <==> NoNegativeTimeInParts(PartsOf(m))
  {
    if m.RfqResponse? {
      ResponseTimes(m);
      hide NoNegativeTime, PartsOf;
    } else {
      OtherTimes(m);
      hide NoNegativeTime, PartsOf;
    }
  }

  lemma {:induction false} ResponseTimes(m: Message)
    requires m.RfqResponse?
    ensures NoNegativeTime(PartsOf(m).fixed) <==> m.expiresAt >= 0 && m.createdAt >= 0 && m.updatedAt >= 0
    ensures |PartsOf(m).group| == |m.quotes|
    ensures forall i :: 0 <= i < |m.quotes| ==>
              (NoNegativeTime(PartsOf(m).group[i]) <==> m.quotes[i].validUntil >= 0 && m.quotes[i].createdAt >= 0)
  {
    hide EntryValues;
    var f := PartsOf(m).fixed;
    assert f[5] == Time(m.expiresAt) && f[6] == Time(m.createdAt) && f[7] == Time(m.updatedAt);
    forall i | 0 <= i < |m.quotes|
      ensures NoNegativeTime(PartsOf(m).group[i]) <==> m.quotes[i].validUntil >= 0 && m.quotes[i].createdAt >= 0
    {
      EntryTimes(m.quotes[i]);
    }
  }

  lemma {:induction false} OtherTimes(m: Message)
    requires !m.RfqResponse?
    ensures NoNegativeTimestamp(m) <==> NoNegativeTimeInParts(PartsOf(m))
  {
    var f := PartsOf(m).fixed;
    match m
    case ExecuteTradeResponse(_, _, _, _, _, created, _, _) => assert f[5] == Time(created);
    case QuoteUpdate(_, _, _, _, _, valid, created, _, _, _) => assert f[5] == Time(valid) && f[6] == Time(created);
    case RfqStatusUpdate(_, _, _, time, _) => assert f[3] == Time(time);
    case _ =>
  }

  /** The messages that some bytes decode to. */
  lemma {:induction false} DecodableExactly(t: Template, m: Message)
    ensures (exists b: seq<byte> :: DecodedMessage(t, b) == Ok(m))
            <==> ValidMessage(m) && TemplateOf(m) == t && CarriedParts(PartsOf(m))
  {
    hide *;
    if b: seq<byte> :| DecodedMessage(t, b) == Ok(m) {
      DecodedIsValid(t, b);
      DecodedParts(t, b);
      MessageYields(t, b);
    }
    if ValidMessage(m) && TemplateOf(m) == t && CarriedParts(PartsOf(m)) {
      CarriedDecodes(m);
    }
  }

  lemma {:induction false} CarriedDecodes(m: Message)
    requires ValidMessage(m) && CarriedParts(PartsOf(m))
    ensures DecodedMessage(TemplateOf(m), Encoded(m)) == Ok(m)
  {
    hide MessageBytes, MessageOf, PartsOf, TemplateOf, ReadMessage, CarriedParts, WellTypedParts;
    PartsInverse(m);
    MessageRoundTrip(TemplateOf(m), PartsOf(m), []);
    assert Encoded(m) + [] == Encoded(m);
  }

  lemma {:induction false} DecodedParts(t: Template, b: seq<byte>)
    requires DecodedMessage(t, b).Ok?
    ensures ReadMessage(t, b).Ok? && PartsOf(DecodedMessage(t, b).value) == ReadMessage(t, b).value.0
  {
    hide ReadMessage, MessageOf, PartsOf, WellTypedParts;
    MessageYields(t, b);
    MessageInverse(t, ReadMessage(t, b).value.0);
  }

  /** What was decoded encodes again, and then survives, exactly when no
      timestamp in it is negative. */
  lemma {:induction false} DecodedReencodes(t: Template, b: seq<byte>)
    requires DecodedMessage(t, b).Ok?
    ensures var m := DecodedMessage(t, b).value;
            && EncodeError(PartsOf(m)) == (if NoNegativeTimestamp(m) then Ok(()) else Err(InvalidTimestamp))
            && (RepresentableMessage(m) <==> NoNegativeTimestamp(m))
  {
    hide DecodedMessage, PartsOf, EncodeError, ReadMessage, NoNegativeTime, NoNegativeTimestamp, RepresentableParts;
    DecodedParts(t, b);
    SbeProperties.DecodedReencodes(t, b);
    TimesOfParts(DecodedMessage(t, b).value);
  }

  /** A status update from one second before the epoch. */
  function BeforeEpoch(): Message {
    RfqStatusUpdate(seq(16, _ => 0), Created, Created, -(NANOS_PER_SECOND as int), [])
  }

  /** Some bytes decode to it, but it cannot be encoded. */
  lemma {:induction false} NegativeTimestampDecodes()
    ensures ValidMessage(BeforeEpoch())
    ensures DecodedMessage(RfqStatusUpdateId, Encoded(BeforeEpoch())) == Ok(BeforeEpoch())
    ensures EncodeError(PartsOf(BeforeEpoch())) == Err(InvalidTimestamp)
  {
    hide *;
    BeforeEpochCarried();
    CarriedDecodes(BeforeEpoch());
    DecodedReencodes(RfqStatusUpdateId, Encoded(BeforeEpoch()));
  }

  lemma {:induction false} BeforeEpochCarried()
    ensures ValidMessage(BeforeEpoch()) && CarriedParts(PartsOf(BeforeEpoch()))
    ensures TemplateOf(BeforeEpoch()) == RfqStatusUpdateId && !NoNegativeTimestamp(BeforeEpoch())
  {
    PowValues();
    hide Pow256, MessageOf, ResponseOf;
  }
}
