/** Which byte of an encoded message holds what. The places are written out as
    numbers, message by message, apart from the layouts the codec walks. */
module SbeWire {
  import Domain
  import opened Bytes
  import opened SbeFields
  import opened SbeLayout
  import opened SbeMessages

  // ---------------------------------------------------------------------
  // One field
  // ---------------------------------------------------------------------

  predicate IdAt(b: seq<byte>, at: nat, id: Id) {
    |id| == 16 && at + 16 <= |b| && b[at..at + 16] == id
  }

  /** The mantissa cut to 64 bits, least significant byte first, and the negated
      scale. */
  predicate DecAt(b: seq<byte>, at: nat, d: Dec) {
    && at + 9 <= |b|
    && Eight(b, at) == d.mantissa % 0x1_0000_0000_0000_0000
    && b[at + 8] as int == if d.scale == 0 then 0 else 256 - d.scale
  }

  predicate LongAt(b: seq<byte>, at: nat, i: int) {
    at + 8 <= |b| && Eight(b, at) == i % 0x1_0000_0000_0000_0000
  }

  predicate WordAt(b: seq<byte>, at: nat, i: int) {
    at + 4 <= |b| && Four(b, at) == i % 0x1_0000_0000
  }

  predicate SideAt(b: seq<byte>, at: nat, side: Domain.OrderSide) {
    at < |b| && b[at] < 2 && [Domain.Buy, Domain.Sell][b[at]] == side
  }

  predicate AssetAt(b: seq<byte>, at: nat, asset: AssetClass) {
    at < |b| && b[at] < 5 && [CryptoSpot, CryptoDerivs, Stock, Forex, Commodity][b[at]] == asset
  }

  predicate VenueAt(b: seq<byte>, at: nat, venue: VenueType) {
    at < |b| && b[at] < 5 && [InternalMM, ExternalMM, DexAggregator, Protocol, RfqProtocol][b[at]] == venue
  }

  predicate StateAt(b: seq<byte>, at: nat, state: RfqState) {
    && at < |b| && b[at] < 10
    && [Created, QuoteRequesting, QuotesReceived, ClientSelecting, Executing, Executed, Failed, Cancelled, Expired,
        Negotiating][b[at]] == state
  }

  predicate FlagAt(b: seq<byte>, at: nat, on: bool) {
    at < |b| && b[at] == if on then 1 else 0
  }

  /** The length of the text in four bytes, and the text. */
  predicate TextAt(b: seq<byte>, at: nat, s: Str) {
    at + 4 + |s| <= |b| && Four(b, at) == |s| % 0x1_0000_0000 && b[at + 4..at + 4 + |s|] == s
  }

  /** Texts one after the other, up to the end of the message. */
  predicate TextsTo(b: seq<byte>, at: nat, texts: seq<Str>)
    decreases |texts|
  {
    if texts == [] then at == |b|
    else TextAt(b, at, texts[0]) && TextsTo(b, at + 4 + |texts[0]|, texts[1..])
  }

  predicate EntryAt(b: seq<byte>, at: nat, q: QuoteEntry) {
    && IdAt(b, at, q.quoteId)
    && DecAt(b, at + 16, q.price) && DecAt(b, at + 25, q.quantity) && DecAt(b, at + 34, q.commission)
    && LongAt(b, at + 43, q.validUntil) && LongAt(b, at + 51, q.createdAt)
    && VenueAt(b, at + 59, q.venueType)
    && TextAt(b, at + 60, q.venueId)
  }

  function EntriesEnd(at: nat, quotes: seq<QuoteEntry>): nat
    decreases |quotes|
  {
    if quotes == [] then at else EntriesEnd(at + 64 + |quotes[0].venueId|, quotes[1..])
  }

  predicate EntriesAt(b: seq<byte>, at: nat, quotes: seq<QuoteEntry>)
    decreases |quotes|
  {
    quotes == [] || (EntryAt(b, at, quotes[0]) && EntriesAt(b, at + 64 + |quotes[0].venueId|, quotes[1..]))
  }

  // ---------------------------------------------------------------------
  // Whole messages
  // ---------------------------------------------------------------------

  /** Block length, message id, schema 1 and version 1, two bytes each. */
  predicate HeaderAt(b: seq<byte>, length: nat, id: nat) {
    |b| >= 8 && Two(b, 0) == length && Two(b, 2) == id && b[4..8] == [1, 0, 1, 0]
  }

  predicate OnTheWire(m: Message, b: seq<byte>) {
    match m
    case CreateRfqRequest(request, client, symbol, base, quote, side, quantity, timeout, asset) =>
      && HeaderAt(b, 35, 20)
      && IdAt(b, 8, request) && SideAt(b, 24, side) && DecAt(b, 25, quantity) && LongAt(b, 34, timeout) && AssetAt(b, 42, asset)
      && TextsTo(b, 43, [client, symbol, base, quote])
    case GetRfqRequest(request, rfq) => HeaderAt(b, 32, 22) && IdAt(b, 8, request) && IdAt(b, 24, rfq) && |b| == 40
    case CancelRfqRequest(request, rfq, reason) =>
      HeaderAt(b, 32, 24) && IdAt(b, 8, request) && IdAt(b, 24, rfq) && TextsTo(b, 40, [reason])
    case ExecuteTradeRequest(rfq, quote) => HeaderAt(b, 32, 26) && IdAt(b, 8, rfq) && IdAt(b, 24, quote) && |b| == 40
    case SubscribeQuotesRequest(rfq) => HeaderAt(b, 16, 30) && IdAt(b, 8, rfq) && |b| == 24
    case SubscribeRfqStatusRequest(rfq) => HeaderAt(b, 16, 32) && IdAt(b, 8, rfq) && |b| == 24
    case UnsubscribeRequest(rfq) => HeaderAt(b, 16, 40) && IdAt(b, 8, rfq) && |b| == 24
    case RfqResponse(t, request, rfq, side, quantity, state, expires, created, updated, asset, selected, quotes,
                     client, symbol, base, quote) =>
      && HeaderAt(b, 84, if t == CreateRfqResponseId then 21 else if t == GetRfqResponseId then 23 else 25)
      && IdAt(b, 8, request) && IdAt(b, 24, rfq) && SideAt(b, 40, side) && DecAt(b, 41, quantity) && StateAt(b, 50, state)
      && LongAt(b, 51, expires) && LongAt(b, 59, created) && LongAt(b, 67, updated) && AssetAt(b, 75, asset) && IdAt(b, 76, selected)
      && |b| >= 96 && Two(b, 92) == 60 && (|quotes| < 0x1_0000 ==> Two(b, 94) == |quotes|)
      && EntriesAt(b, 96, quotes)
      && TextsTo(b, EntriesEnd(96, quotes), [client, symbol, base, quote])
    case ExecuteTradeResponse(trade, rfq, quote, price, quantity, created, venue, reference) =>
      && HeaderAt(b, 74, 27)
      && IdAt(b, 8, trade) && IdAt(b, 24, rfq) && IdAt(b, 40, quote) && DecAt(b, 56, price) && DecAt(b, 65, quantity)
      && LongAt(b, 74, created)
      && TextsTo(b, 82, [venue, reference])
    case QuoteUpdate(quote, rfq, price, quantity, commission, valid, created, venueType, final, venue) =>
      && HeaderAt(b, 77, 31)
      && IdAt(b, 8, quote) && IdAt(b, 24, rfq) && DecAt(b, 40, price) && DecAt(b, 49, quantity) && DecAt(b, 58, commission)
      && LongAt(b, 67, valid) && LongAt(b, 75, created) && VenueAt(b, 83, venueType) && FlagAt(b, 84, final)
      && TextsTo(b, 85, [venue])
    case RfqStatusUpdate(rfq, previous, current, time, message) =>
      && HeaderAt(b, 26, 33)
      && IdAt(b, 8, rfq) && StateAt(b, 24, previous) && StateAt(b, 25, current) && LongAt(b, 26, time)
      && TextsTo(b, 34, [message])
    case ErrorResponse(request, rfq, code, message, metadata) =>
      && HeaderAt(b, 36, 50)
      && IdAt(b, 8, request) && IdAt(b, 24, rfq) && WordAt(b, 40, code)
      && TextsTo(b, 44, [message, metadata])
  }

  // ---------------------------------------------------------------------
  // The encoders put them there
  // ---------------------------------------------------------------------

  /** The bytes of a field stand at a place. */
  ghost predicate Stands(b: seq<byte>, at: nat, kind: Kind, v: Value)
    requires ValidKind(kind) && WellTyped(kind, v)
  {
    at + |FieldBytes(kind, v)| <= |b| && b[at..at + |FieldBytes(kind, v)|] == FieldBytes(kind, v)
  }

  lemma {:induction false} PlacedTwo(b: seq<byte>, at: nat, n: nat)
    requires at + 2 <= |b| && b[at..at + 2] == LittleEndian(n, 2) && n < 0x1_0000
    ensures Two(b, at) == n
  {
    PowValues();
    LittleEndianRoundTrip(n, 2);
    TwoOctets(b[at..at + 2]);
    hide LittleEndian, FromLittleEndian;
  }

  lemma {:induction false} PlacedFour(b: seq<byte>, at: nat, i: int)
    requires at + 4 <= |b| && b[at..at + 4] == LittleEndian(Unsigned(i, 4), 4)
    ensures Four(b, at) == i % 0x1_0000_0000
  {
    PowValues();
    LittleEndianRoundTrip(Unsigned(i, 4), 4);
    FourOctets(b[at..at + 4]);
    hide LittleEndian, FromLittleEndian, Pow256;
  }

  lemma {:induction false} PlacedEight(b: seq<byte>, at: nat, i: int)
    requires at + 8 <= |b| && b[at..at + 8] == LittleEndian(Unsigned(i, 8), 8)
    ensures Eight(b, at) == i % 0x1_0000_0000_0000_0000
  {
    PowValues();
    LittleEndianRoundTrip(Unsigned(i, 8), 8);
    EightOctets(b[at..at + 8]);
    hide LittleEndian, FromLittleEndian, Pow256;
    assert Eight(b, at) == Eight(b[at..at + 8], 0);
  }

  lemma {:induction false} PlacedId(b: seq<byte>, at: nat, id: Id)
    requires WellTyped(UuidKind, Uuid(id)) && Stands(b, at, UuidKind, Uuid(id))
    ensures IdAt(b, at, id)
  {
    UuidReadBack(Uuid(id), []);
    hide FieldBytes;
  }

  lemma {:induction false} PlacedDec(b: seq<byte>, at: nat, kind: Kind, d: Dec)
    requires (kind == AmountKind || kind == DecimalKind) && WellTyped(kind, Amount(d)) && Stands(b, at, kind, Amount(d))
    ensures DecAt(b, at, d)
  {
    var high, low := LittleEndian(Unsigned(d.mantissa, 8), 8), LittleEndian(Unsigned(-(d.scale as int), 1), 1);
    ScaleOctet(d.scale);
    hide LittleEndian, Unsigned;
    assert b[at..at + 9] == high + low;
    assert b[at..at + 9][..8] == b[at..at + 8] && (high + low)[..8] == high;
    assert b[at + 8] == b[at..at + 9][8] == low[0];
    PlacedEight(b, at, d.mantissa);
  }

  lemma {:induction false} ScaleOctet(scale: nat)
    requires scale <= MAX_SCALE
    ensures LittleEndian(Unsigned(-(scale as int), 1), 1)[0] as int == if scale == 0 then 0 else 256 - scale
  {
    PowValues();
    WrapAround(-(scale as int), 256);
  }

  lemma {:induction false} PlacedTime(b: seq<byte>, at: nat, t: int)
    requires Stands(b, at, TimeKind, Time(t))
    ensures LongAt(b, at, t)
  {
    hide LittleEndian, Unsigned;
    PlacedEight(b, at, t);
  }

  lemma {:induction false} PlacedInt(b: seq<byte>, at: nat, width: nat, i: int)
    requires (width == 4 || width == 8) && WellTyped(IntKind(width), Int(i)) && Stands(b, at, IntKind(width), Int(i))
    ensures if width == 4 then WordAt(b, at, i) else LongAt(b, at, i)
  {
    hide LittleEndian, Unsigned;
    if width == 4 {
      PlacedFour(b, at, i);
    } else {
      PlacedEight(b, at, i);
    }
  }

  lemma {:induction false} PlacedCode(b: seq<byte>, at: nat, variants: nat, code: nat)
    requires variants <= 256 && code < variants && Stands(b, at, CodeKind(variants), Code(code))
    ensures at < |b| && b[at] == code
  {
    assert b[at] == b[at..at + 1][0];
  }

  lemma {:induction false} PlacedFlag(b: seq<byte>, at: nat, on: bool)
    requires Stands(b, at, FlagKind, Flag(on))
    ensures FlagAt(b, at, on)
  {
    assert b[at] == b[at..at + 1][0];
  }

  lemma {:induction false} PlacedText(b: seq<byte>, at: nat, s: Str)
    requires ValidUtf8(s) && Stands(b, at, TextKind, Text(s))
    ensures TextAt(b, at, s)
  {
    PowValues();
    hide LittleEndian, ValidUtf8, Pow256;
    var head, n := LittleEndian(Unsigned(|s|, 4), 4), 4 + |s|;
    assert FieldBytes(TextKind, Text(s)) == head + s && |head + s| == n;
    assert b[at..at + n][..4] == b[at..at + 4] && (head + s)[..4] == head;
    assert b[at..at + n][4..] == b[at + 4..at + n] && (head + s)[4..] == s;
    PlacedFour(b, at, |s|);
  }

  // ---------------------------------------------------------------------
  // Where the fields of a list stand
  // ---------------------------------------------------------------------

  lemma {:induction false} FieldPlace(kinds: seq<Kind>, vs: seq<Value>, b: seq<byte>, at: nat, i: nat)
    requires ValidKinds(kinds) && WellTypedAll(kinds, vs) && i < |kinds|
    requires at + |FieldsBytes(kinds, vs)| <= |b| && b[at..at + |FieldsBytes(kinds, vs)|] == FieldsBytes(kinds, vs)
    ensures ValidKind(kinds[i]) && WellTyped(kinds[i], vs[i])
    ensures Stands(b, at + FieldsSize(kinds[..i], vs[..i]), kinds[i], vs[i])
  {
    hide FieldBytes, FieldSize, WellTyped, ValidKind;
    var first, others := FieldBytes(kinds[0], vs[0]), FieldsBytes(kinds[1..], vs[1..]);
    var n := |first + others|;
    assert FieldsBytes(kinds, vs) == first + others;
    if i == 0 {
      assert b[at..at + n][..|first|] == b[at..at + |first|] && (first + others)[..|first|] == first;
      assert kinds[..0] == [] && vs[..0] == [];
    } else {
      FieldBytesSize(kinds[0], vs[0]);
      assert b[at..at + n][|first|..] == b[at + |first|..at + n] && (first + others)[|first|..] == others;
      FieldPlace(kinds[1..], vs[1..], b, at + |first|, i - 1);
      assert kinds[..i][1..] == kinds[1..][..i - 1] && vs[..i][1..] == vs[1..][..i - 1];
      assert kinds[..i][0] == kinds[0] && vs[..i][0] == vs[0];
    }
  }

  lemma {:induction false} TextsPlace(texts: seq<Str>, b: seq<byte>, at: nat, kinds: seq<Kind>, vs: seq<Value>)
    requires ValidKinds(kinds) && WellTypedAll(kinds, vs) && |kinds| == |texts|
    requires forall i :: 0 <= i < |texts| ==> kinds[i] == TextKind && vs[i] == Text(texts[i])
    requires at <= |b| && b[at..] == FieldsBytes(kinds, vs)
    ensures TextsTo(b, at, texts)
  {
    hide FieldBytes, ValidUtf8, TextAt;
    if texts != [] {
      var first, others := FieldBytes(kinds[0], vs[0]), FieldsBytes(kinds[1..], vs[1..]);
      FieldBytesSize(kinds[0], vs[0]);
      assert b[at..] == first + others;
      assert b[at..][..|first|] == b[at..at + |first|] && (first + others)[..|first|] == first;
      assert b[at..][|first|..] == b[at + |first|..] && (first + others)[|first|..] == others;
      PlacedText(b, at, texts[0]);
      TextsPlace(texts[1..], b, at + |first|, kinds[1..], vs[1..]);
    }
  }

  /** The same with the offset as a number. */
  lemma {:induction false} FixedPlace(kinds: seq<Kind>, vs: seq<Value>, b: seq<byte>, at: nat, i: nat, offset: nat)
    requires ValidKinds(kinds) && WellTypedAll(kinds, vs) && i < |kinds|
    requires at + |FieldsBytes(kinds, vs)| <= |b| && b[at..at + |FieldsBytes(kinds, vs)|] == FieldsBytes(kinds, vs)
    requires FixedSizes(kinds[..i]) == offset && forall k :: 0 <= k < i ==> !kinds[k].TextKind?
    ensures ValidKind(kinds[i]) && WellTyped(kinds[i], vs[i]) && Stands(b, at + offset, kinds[i], vs[i])
  {
    hide FieldsBytes, WellTyped, ValidKind, FixedSizes, FieldsSize, Stands;
    FieldPlace(kinds, vs, b, at, i);
    FixedFieldsSize(kinds[..i], vs[..i]);
  }

  // ---------------------------------------------------------------------
  // The quotes group
  // ---------------------------------------------------------------------

  lemma {:induction false} EntryOffsets()
    ensures FixedSizes(QUOTE_KINDS[..0]) == 0 && FixedSizes(QUOTE_KINDS[..1]) == 16 && FixedSizes(QUOTE_KINDS[..2]) == 25
    ensures FixedSizes(QUOTE_KINDS[..3]) == 34 && FixedSizes(QUOTE_KINDS[..4]) == 43 && FixedSizes(QUOTE_KINDS[..5]) == 51
    ensures FixedSizes(QUOTE_KINDS[..6]) == 59 && FixedSizes(QUOTE_KINDS[..7]) == 60
    ensures forall i :: 0 <= i < 7 ==> !QUOTE_KINDS[i].TextKind?
  {
    Unroll(QUOTE_KINDS[..0]);
    Unroll(QUOTE_KINDS[..1]);
    Unroll(QUOTE_KINDS[..2]);
    Unroll(QUOTE_KINDS[..3]);
    Unroll(QUOTE_KINDS[..4]);
    Unroll(QUOTE_KINDS[..5]);
    Unroll(QUOTE_KINDS[..6]);
    Unroll(QUOTE_KINDS[..7]);
    hide FixedSizes;
  }

  lemma {:induction false} EntryPlace(q: QuoteEntry, b: seq<byte>, at: nat)
    requires ValidKinds(QUOTE_KINDS) && WellTypedAll(QUOTE_KINDS, EntryValues(q))
    requires var bytes := FieldsBytes(QUOTE_KINDS, EntryValues(q)); at + |bytes| <= |b| && b[at..at + |bytes|] == bytes
    ensures EntryAt(b, at, q)
  {
    hide *;
    var vs := EntryValues(q);
    EntryOffsets();
    EntryFields(q);
    FixedPlace(QUOTE_KINDS, vs, b, at, 0, 0);
    FixedPlace(QUOTE_KINDS, vs, b, at, 1, 16);
    FixedPlace(QUOTE_KINDS, vs, b, at, 2, 25);
    FixedPlace(QUOTE_KINDS, vs, b, at, 3, 34);
    FixedPlace(QUOTE_KINDS, vs, b, at, 4, 43);
    FixedPlace(QUOTE_KINDS, vs, b, at, 5, 51);
    FixedPlace(QUOTE_KINDS, vs, b, at, 6, 59);
    FixedPlace(QUOTE_KINDS, vs, b, at, 7, 60);
    PlacedId(b, at, q.quoteId);
    PlacedDec(b, at + 16, AmountKind, q.price);
    PlacedDec(b, at + 25, AmountKind, q.quantity);
    PlacedDec(b, at + 34, DecimalKind, q.commission);
    PlacedTime(b, at + 43, q.validUntil);
    PlacedTime(b, at + 51, q.createdAt);
    PlacedCode(b, at + 59, 5, VenueCode(q.venueType));
    VenueNumber(b, at + 59, q.venueType);
    PlacedText(b, at + 60, q.venueId);
    EntryPieces(b, at, q);
  }

  lemma {:induction false} EntryFields(q: QuoteEntry)
    ensures |QUOTE_KINDS| == |EntryValues(q)| == 8
    ensures QUOTE_KINDS == [UuidKind, AmountKind, AmountKind, DecimalKind, TimeKind, TimeKind, CodeKind(5), TextKind]
    ensures EntryValues(q) == [Uuid(q.quoteId), Amount(q.price), Amount(q.quantity), Amount(q.commission), Time(q.validUntil),
                               Time(q.createdAt), Code(VenueCode(q.venueType)), Text(q.venueId)]
    ensures VenueCode(q.venueType) < 5
    ensures WellTyped(TextKind, Text(q.venueId)) <==> ValidUtf8(q.venueId)
  {
    hide ValidUtf8;
  }

  lemma {:induction false} VenueNumber(b: seq<byte>, at: nat, v: VenueType)
    requires at < |b| && b[at] == VenueCode(v)
    ensures VenueAt(b, at, v)
  {
  }

  lemma {:induction false} SideNumber(b: seq<byte>, at: nat, side: Domain.OrderSide)
    requires at < |b| && b[at] == SideCode(side)
    ensures SideAt(b, at, side)
  {
  }

  lemma {:induction false} AssetNumber(b: seq<byte>, at: nat, asset: AssetClass)
    requires at < |b| && b[at] == AssetCode(asset)
    ensures AssetAt(b, at, asset)
  {
  }

  lemma {:induction false} StateNumber(b: seq<byte>, at: nat, state: RfqState)
    requires at < |b| && b[at] == StateCode(state)
    ensures StateAt(b, at, state)
  {
  }

  lemma {:induction false} EntryPieces(b: seq<byte>, at: nat, q: QuoteEntry)
    requires IdAt(b, at, q.quoteId)
    requires DecAt(b, at + 16, q.price) && DecAt(b, at + 25, q.quantity) && DecAt(b, at + 34, q.commission)
    requires LongAt(b, at + 43, q.validUntil) && LongAt(b, at + 51, q.createdAt)
    requires VenueAt(b, at + 59, q.venueType) && TextAt(b, at + 60, q.venueId)
    ensures EntryAt(b, at, q)
  {
    hide IdAt, DecAt, LongAt, VenueAt, TextAt;
  }

  lemma {:induction false} EntrySize(q: QuoteEntry)
    ensures FieldsSize(QUOTE_KINDS, EntryValues(q)) == 64 + |q.venueId|
  {
    EntryFields(q);
    FieldsSizeOfEight(QUOTE_KINDS, EntryValues(q));
    hide FieldsSize;
  }

  lemma {:induction false} FieldsSizeOfEight(kinds: seq<Kind>, vs: seq<Value>)
    requires |kinds| == |vs| == 8
    ensures FieldsSize(kinds, vs) ==
            FieldSize(kinds[0], vs[0]) + FieldSize(kinds[1], vs[1]) + FieldSize(kinds[2], vs[2]) + FieldSize(kinds[3], vs[3])
            + FieldSize(kinds[4], vs[4]) + FieldSize(kinds[5], vs[5]) + FieldSize(kinds[6], vs[6]) + FieldSize(kinds[7], vs[7])
  {
    hide *;
    FieldsSizeStep(kinds, vs, 0);
    FieldsSizeStep(kinds, vs, 1);
    FieldsSizeStep(kinds, vs, 2);
    FieldsSizeStep(kinds, vs, 3);
    FieldsSizeStep(kinds, vs, 4);
    FieldsSizeStep(kinds, vs, 5);
    FieldsSizeStep(kinds, vs, 6);
    FieldsSizeStep(kinds, vs, 7);
    NoFieldsSize();
    assert kinds[0..] == kinds && vs[0..] == vs && kinds[8..] == [] && vs[8..] == [];
  }

  lemma {:induction false} NoFieldsSize()
    ensures FieldsSize([], []) == 0
  {
  }

  lemma {:induction false} FieldsSizeStep(kinds: seq<Kind>, vs: seq<Value>, i: nat)
    requires i < |kinds| == |vs|
    ensures FieldsSize(kinds[i..], vs[i..]) == FieldSize(kinds[i], vs[i]) + FieldsSize(kinds[i + 1..], vs[i + 1..])
  {
    hide FieldSize;
    assert kinds[i..][1..] == kinds[i + 1..] && vs[i..][1..] == vs[i + 1..];
  }

  lemma {:induction false} EntriesPlace(quotes: seq<QuoteEntry>, b: seq<byte>, at: nat)
    requires WellTypedGroup(QuotesValues(quotes))
    requires var bytes := GroupBytes(QuotesValues(quotes)); at + |bytes| <= |b| && b[at..at + |bytes|] == bytes
    ensures EntriesAt(b, at, quotes)
    ensures EntriesEnd(at, quotes) == at + |GroupBytes(QuotesValues(quotes))|
    decreases |quotes|
  {
    hide FieldsBytes, EntryValues, WellTypedAll, EntryAt;
    var group := QuotesValues(quotes);
    if quotes != [] {
      var first, others := FieldsBytes(QUOTE_KINDS, group[0]), GroupBytes(group[1..]);
      assert group[0] == EntryValues(quotes[0]) && group[1..] == QuotesValues(quotes[1..]);
      assert GroupBytes(group) == first + others;
      FieldsBytesSize(QUOTE_KINDS, group[0]);
      EntrySize(quotes[0]);
      hide GroupBytes, FieldsSize, QuotesValues;
      var n := |first + others|;
      assert b[at..at + n][..|first|] == b[at..at + |first|] && (first + others)[..|first|] == first;
      assert b[at..at + n][|first|..] == b[at + |first|..at + n] && (first + others)[|first|..] == others;
      EntryPlace(quotes[0], b, at);
      EntriesPlace(quotes[1..], b, at + |first|);
    }
  }

  // ---------------------------------------------------------------------
  // The pieces of a message
  // ---------------------------------------------------------------------

  /** Where the texts begin. */
  function TailStart(t: Template, p: Parts): nat
    requires forall i :: 0 <= i < |p.group| ==> |p.group[i]| == |QUOTE_KINDS|
  {
    8 + BlockLength(t) + GroupHeaderSize(t) + GroupSize(p.group)
  }

  lemma {:induction false} MessagePieces(t: Template, p: Parts)
    requires WellTypedParts(t, p)
    ensures ValidKinds(FixedKinds(t)) && ValidKinds(TailKinds(t))
    ensures WellTypedAll(FixedKinds(t), p.fixed) && WellTypedAll(TailKinds(t), p.tail) && WellTypedGroup(p.group)
    ensures var b, fixed := MessageBytes(t, p), FieldsBytes(FixedKinds(t), p.fixed);
            && |fixed| == BlockLength(t) && 8 + |fixed| <= |b|
            && b[..8] == HeaderBytes(t) && b[8..8 + |fixed|] == fixed
    ensures var b, header, entries := MessageBytes(t, p), GroupHeaderBytes(t, |p.group|), GroupBytes(p.group);
            var at := 8 + BlockLength(t);
            && at + |header| + |entries| == TailStart(t, p) <= |b|
            && b[at..at + |header|] == header && b[at + |header|..at + |header| + |entries|] == entries
            && b[TailStart(t, p)..] == FieldsBytes(TailKinds(t), p.tail)
  {
    hide *;
    LayoutsValid(t);
    WellTypedPieces(t, p);
    MessageBytesExact(t, p);
    GroupBytesSize(p.group);
    HeaderIsEight();
    Cuts(HeaderBytes(t), FieldsBytes(FixedKinds(t), p.fixed), GroupHeaderBytes(t, |p.group|), GroupBytes(p.group),
         FieldsBytes(TailKinds(t), p.tail));
    TailStarts(t, p);
  }

  lemma {:induction false} HeaderIsEight()
    ensures HEADER_SIZE == 8
  {
  }

  lemma {:induction false} TailStarts(t: Template, p: Parts)
    requires WellTypedGroup(p.group)
    ensures TailStart(t, p) == 8 + BlockLength(t) + GroupHeaderSize(t) + GroupSize(p.group)
  {
  }

  lemma {:induction false} WellTypedPieces(t: Template, p: Parts)
    requires WellTypedParts(t, p) && ValidKinds(FixedKinds(t)) && ValidKinds(TailKinds(t))
    ensures WellTypedAll(FixedKinds(t), p.fixed) && WellTypedAll(TailKinds(t), p.tail) && WellTypedGroup(p.group)
    ensures MessageBytes(t, p) == HeaderBytes(t) + (FieldsBytes(FixedKinds(t), p.fixed)
              + (GroupHeaderBytes(t, |p.group|) + (GroupBytes(p.group) + FieldsBytes(TailKinds(t), p.tail))))
  {
    hide HeaderBytes, FieldsBytes, GroupBytes, FixedKinds, TailKinds, GroupHeaderBytes, WellTypedAll, WellTypedGroup;
  }

  lemma {:induction false} Cuts(a: seq<byte>, c: seq<byte>, d: seq<byte>, e: seq<byte>, f: seq<byte>)
    ensures var b := a + (c + (d + (e + f)));
            && b[..|a|] == a && b[|a|..|a| + |c|] == c && b[|a| + |c|..|a| + |c| + |d|] == d
            && b[|a| + |c| + |d|..|a| + |c| + |d| + |e|] == e && b[|a| + |c| + |d| + |e|..] == f
  {
    Cut(a, c, d + (e + f));
    Cut(a + c, d, e + f);
    Cut(a + c + d, e, f);
  }

  lemma {:induction false} Cut(front: seq<byte>, piece: seq<byte>, behind: seq<byte>)
    ensures var b := front + (piece + behind);
            && b == front + piece + behind
            && b[..|front|] == front && b[|front|..|front| + |piece|] == piece && b[|front| + |piece|..] == behind
  {
  }

  /** The header of every encoded message. */
  lemma {:induction false} HeaderPlace(t: Template, b: seq<byte>)
    requires |b| >= 8 && b[..8] == HeaderBytes(t)
    ensures HeaderAt(b, BlockLength(t), t.Id())
  {
    var length, id, schema, version := LittleEndian(BlockLength(t), 2), LittleEndian(t.Id(), 2), LittleEndian(SCHEMA_ID, 2), LittleEndian(SCHEMA_VERSION, 2);
    assert HeaderBytes(t) == length + id + schema + version;
    One();
    hide LittleEndian, HeaderBytes;
    assert b[..8][..2] == b[0..2] && (length + id + schema + version)[..2] == length;
    assert b[..8][2..4] == b[2..4] && (length + id + schema + version)[2..4] == id;
    assert b[..8][4..8] == b[4..8] && (length + id + schema + version)[4..8] == schema + version;
    PlacedTwo(b, 0, BlockLength(t));
    PlacedTwo(b, 2, t.Id());
  }

  lemma {:induction false} One()
    ensures LittleEndian(SCHEMA_ID, 2) == [1, 0] && LittleEndian(SCHEMA_VERSION, 2) == [1, 0]
  {
    assert LittleEndian(0, 1) == [0] + LittleEndian(0, 0);
  }

  /** A field of the fixed block. */
  lemma {:induction false} BlockPlace(t: Template, p: Parts, i: nat, offset: nat)
    requires WellTypedParts(t, p) && i < |FixedKinds(t)|
    requires FixedSizes(FixedKinds(t)[..i]) == offset
    ensures i < |p.fixed| && ValidKind(FixedKinds(t)[i]) && WellTyped(FixedKinds(t)[i], p.fixed[i])
    ensures Stands(MessageBytes(t, p), 8 + offset, FixedKinds(t)[i], p.fixed[i])
  {
    hide *;
    MessagePieces(t, p);
    BlockLengthsExact(t);
    SameLength(FixedKinds(t), p.fixed);
    FixedPlace(FixedKinds(t), p.fixed, MessageBytes(t, p), 8, i, offset);
  }

  lemma {:induction false} SameLength(kinds: seq<Kind>, vs: seq<Value>)
    requires WellTypedAll(kinds, vs)
    ensures |kinds| == |vs|
  {
  }

  // ---------------------------------------------------------------------
  // Message by message
  // ---------------------------------------------------------------------

  /** A value of the fixed block stands at a place. */
  predicate ValueAt(b: seq<byte>, at: nat, kind: Kind, v: Value) {
    match v
    case Uuid(octets) => IdAt(b, at, octets)
    case Code(code) => at < |b| && b[at] == code
    case Flag(on) => FlagAt(b, at, on)
    case Decimal(mantissa, scale) => DecAt(b, at, Dec(mantissa, scale))
    case Int(i) => if kind == IntKind(4) then WordAt(b, at, i) else LongAt(b, at, i)
    case Time(nanos) => LongAt(b, at, nanos)
    case Text(utf8) => TextAt(b, at, utf8)
  }

  lemma {:induction false} StandsAsValue(b: seq<byte>, at: nat, kind: Kind, v: Value)
    requires ValidKind(kind) && WellTyped(kind, v) && Stands(b, at, kind, v)
    ensures ValueAt(b, at, kind, v)
  {
    hide Stands, FieldBytes, ValidUtf8, Fits, IdAt, DecAt, LongAt, WordAt, FlagAt, TextAt;
    match kind
    case UuidKind => PlacedId(b, at, v.octets);
    case CodeKind(variants) => PlacedCode(b, at, variants, v.code);
    case FlagKind => PlacedFlag(b, at, v.on);
    case AmountKind => PlacedDec(b, at, kind, Dec(v.mantissa, v.scale));
    case DecimalKind => PlacedDec(b, at, kind, Dec(v.mantissa, v.scale));
    case IntKind(width) => PlacedInt(b, at, width, v.i);
    case TimeKind => PlacedTime(b, at, v.nanos);
    case TextKind => PlacedText(b, at, v.utf8);
  }

  ghost predicate BlockAt(b: seq<byte>, kinds: seq<Kind>, vs: seq<Value>) {
    |kinds| == |vs| && forall i :: 0 <= i < |kinds| ==> ValueAt(b, 8 + FixedSizes(kinds[..i]), kinds[i], vs[i])
  }

  lemma {:induction false} BlockWritten(t: Template, p: Parts)
    requires WellTypedParts(t, p)
    ensures BlockAt(MessageBytes(t, p), FixedKinds(t), p.fixed)
  {
    hide MessageBytes, FixedKinds, WellTypedParts, FixedSizes, Stands, ValueAt, WellTyped, WellTypedAll, ValidKinds;
    MessagePieces(t, p);
    SameLength(FixedKinds(t), p.fixed);
    forall i | 0 <= i < |FixedKinds(t)|
      ensures ValueAt(MessageBytes(t, p), 8 + FixedSizes(FixedKinds(t)[..i]), FixedKinds(t)[i], p.fixed[i])
    {
      BlockPlace(t, p, i, FixedSizes(FixedKinds(t)[..i]));
      StandsAsValue(MessageBytes(t, p), 8 + FixedSizes(FixedKinds(t)[..i]), FixedKinds(t)[i], p.fixed[i]);
    }
  }

  lemma {:induction false} ValueFound(b: seq<byte>, k: seq<Kind>, vs: seq<Value>, i: nat)
    requires BlockAt(b, k, vs) && i < |k| <= 10
    ensures var at := 8 + (if i > 0 then FixedSize(k[0]) else 0) + (if i > 1 then FixedSize(k[1]) else 0)
              + (if i > 2 then FixedSize(k[2]) else 0) + (if i > 3 then FixedSize(k[3]) else 0)
              + (if i > 4 then FixedSize(k[4]) else 0) + (if i > 5 then FixedSize(k[5]) else 0)
              + (if i > 6 then FixedSize(k[6]) else 0) + (if i > 7 then FixedSize(k[7]) else 0)
              + (if i > 8 then FixedSize(k[8]) else 0);
            ValueAt(b, at, k[i], vs[i])
  {
    Unroll(k[..i]);
    hide FixedSizes, ValueAt;
  }

  lemma {:induction false} TailTexts(t: Template)
    ensures |TailKinds(t)| == TailCount(t) && forall i :: 0 <= i < |TailKinds(t)| ==> TailKinds(t)[i] == TextKind
  {
  }

  /** The texts of a message, behind its group if it has one. */
  lemma {:induction false} TailWritten(t: Template, p: Parts, texts: seq<Str>)
    requires WellTypedParts(t, p) && WellTypedGroup(p.group) && |texts| == |p.tail| == TailCount(t)
    requires forall i :: 0 <= i < |texts| ==> p.tail[i] == Text(texts[i])
    ensures TextsTo(MessageBytes(t, p), TailStart(t, p), texts)
  {
    TailTexts(t);
    hide *;
    MessagePieces(t, p);
    TextsPlace(texts, MessageBytes(t, p), TailStart(t, p), TailKinds(t), p.tail);
  }

  lemma {:induction false} HeaderWritten(t: Template, p: Parts)
    requires WellTypedParts(t, p)
    ensures HeaderAt(MessageBytes(t, p), BlockLength(t), t.Id())
  {
    hide *;
    MessagePieces(t, p);
    HeaderPlace(t, MessageBytes(t, p));
  }

  /** The texts of a message. */
  function TextsOf(m: Message): seq<Str> {
    match m
    case CreateRfqRequest(_, client, symbol, base, quote, _, _, _, _) => [client, symbol, base, quote]
    case CancelRfqRequest(_, _, reason) => [reason]
    case RfqResponse(_, _, _, _, _, _, _, _, _, _, _, _, client, symbol, base, quote) => [client, symbol, base, quote]
    case ExecuteTradeResponse(_, _, _, _, _, _, venue, reference) => [venue, reference]
    case QuoteUpdate(_, _, _, _, _, _, _, _, _, venue) => [venue]
    case RfqStatusUpdate(_, _, _, _, message) => [message]
    case ErrorResponse(_, _, _, message, metadata) => [message, metadata]
    case _ => []
  }

  /** What the encoders write, in the terms of the layout. */
  ghost predicate Written(m: Message, b: seq<byte>) {
    var t, p := TemplateOf(m), PartsOf(m);
    && HeaderAt(b, BlockLength(t), t.Id())
    && BlockAt(b, FixedKinds(t), p.fixed)
    && TextsTo(b, if m.RfqResponse? then EntriesEnd(96, m.quotes) else 8 + BlockLength(t), TextsOf(m))
  }

  lemma {:induction false} PlainWritten(m: Message)
    requires ValidMessage(m) && !m.RfqResponse?
    ensures Written(m, Encoded(m))
  {
    hide FixedKinds, TailKinds, BlockAt, HeaderAt, TextsTo, EntriesEnd, MessageBytes, WellTypedParts;
    var t, p := TemplateOf(m), PartsOf(m);
    assert WellTypedParts(t, p);
    PlainShape(m);
    BlockWritten(t, p);
    HeaderWritten(t, p);
    TailWritten(t, p, TextsOf(m));
  }

  lemma {:induction false} PlainShape(m: Message)
    requires ValidMessage(m) && !m.RfqResponse?
    ensures var t, p := TemplateOf(m), PartsOf(m);
            && p.group == [] && WellTypedGroup(p.group) && TailStart(t, p) == 8 + BlockLength(t)
            && |TextsOf(m)| == |p.tail| == TailCount(t)
            && forall i :: 0 <= i < |TextsOf(m)| ==> p.tail[i] == Text(TextsOf(m)[i])
  {
    hide WellTypedParts;
  }

  /** The messages that hold ids only. */
  lemma {:induction false} IdsPlaces(m: Message, b: seq<byte>)
    requires Written(m, b) && (m.GetRfqRequest? || m.ExecuteTradeRequest? || m.SubscribeQuotesRequest? || m.SubscribeRfqStatusRequest? || m.UnsubscribeRequest?)
    ensures OnTheWire(m, b)
  {
    hide HeaderAt, BlockAt, IdAt, DecAt, LongAt, WordAt, SideAt, AssetAt, VenueAt, StateAt, FlagAt, TextsTo, EntriesAt, EntriesEnd;
    var k, vs := FixedKinds(TemplateOf(m)), PartsOf(m).fixed;
    ValueFound(b, k, vs, 0);
    if |k| > 1 {
      ValueFound(b, k, vs, 1);
    }
    EndsThere(b, 8 + BlockLength(TemplateOf(m)));
  }

  lemma {:induction false} EndsThere(b: seq<byte>, at: nat)
    ensures TextsTo(b, at, []) ==> |b| == at
  {
  }

  /** A request for quotes. */
  lemma {:induction false} RequestPlaces(m: Message, b: seq<byte>)
    requires Written(m, b) && m.CreateRfqRequest?
    ensures OnTheWire(m, b)
  {
    hide HeaderAt, BlockAt, IdAt, DecAt, LongAt, WordAt, SideAt, AssetAt, VenueAt, StateAt, FlagAt, TextsTo, EntriesAt, EntriesEnd;
    var k, vs := FixedKinds(TemplateOf(m)), PartsOf(m).fixed;
    ValueFound(b, k, vs, 0);
    ValueFound(b, k, vs, 1);
    ValueFound(b, k, vs, 2);
    ValueFound(b, k, vs, 3);
    ValueFound(b, k, vs, 4);
    SideNumber(b, 24, m.side);
    AssetNumber(b, 42, m.assetClass);
  }

  /** A cancellation. */
  lemma {:induction false} CancelPlaces(m: Message, b: seq<byte>)
    requires Written(m, b) && m.CancelRfqRequest?
    ensures OnTheWire(m, b)
  {
    hide HeaderAt, BlockAt, IdAt, DecAt, LongAt, WordAt, SideAt, AssetAt, VenueAt, StateAt, FlagAt, TextsTo, EntriesAt, EntriesEnd;
    var k, vs := FixedKinds(TemplateOf(m)), PartsOf(m).fixed;
    ValueFound(b, k, vs, 0);
    ValueFound(b, k, vs, 1);
  }

  /** An error. */
  lemma {:induction false} ErrorPlaces(m: Message, b: seq<byte>)
    requires Written(m, b) && m.ErrorResponse?
    ensures OnTheWire(m, b)
  {
    hide HeaderAt, BlockAt, IdAt, DecAt, LongAt, WordAt, SideAt, AssetAt, VenueAt, StateAt, FlagAt, TextsTo, EntriesAt, EntriesEnd;
    var k, vs := FixedKinds(TemplateOf(m)), PartsOf(m).fixed;
    ValueFound(b, k, vs, 0);
    ValueFound(b, k, vs, 1);
    ValueFound(b, k, vs, 2);
  }

  /** An executed trade. */
  lemma {:induction false} TradePlaces(m: Message, b: seq<byte>)
    requires Written(m, b) && m.ExecuteTradeResponse?
    ensures OnTheWire(m, b)
  {
    hide HeaderAt, BlockAt, IdAt, DecAt, LongAt, WordAt, SideAt, AssetAt, VenueAt, StateAt, FlagAt, TextsTo, EntriesAt, EntriesEnd;
    var k, vs := FixedKinds(TemplateOf(m)), PartsOf(m).fixed;
    ValueFound(b, k, vs, 0);
    ValueFound(b, k, vs, 1);
    ValueFound(b, k, vs, 2);
    ValueFound(b, k, vs, 3);
    ValueFound(b, k, vs, 4);
    ValueFound(b, k, vs, 5);
  }

  /** A quote. */
  lemma {:induction false} QuotePlaces(m: Message, b: seq<byte>)
    requires Written(m, b) && m.QuoteUpdate?
    ensures OnTheWire(m, b)
  {
    hide HeaderAt, BlockAt, IdAt, DecAt, LongAt, WordAt, SideAt, AssetAt, VenueAt, StateAt, FlagAt, TextsTo, EntriesAt, EntriesEnd;
    var k, vs := FixedKinds(TemplateOf(m)), PartsOf(m).fixed;
    ValueFound(b, k, vs, 0);
    ValueFound(b, k, vs, 1);
    ValueFound(b, k, vs, 2);
    ValueFound(b, k, vs, 3);
    ValueFound(b, k, vs, 4);
    ValueFound(b, k, vs, 5);
    ValueFound(b, k, vs, 6);
    ValueFound(b, k, vs, 7);
    ValueFound(b, k, vs, 8);
    VenueNumber(b, 83, m.venueType);
  }

  /** A change of state. */
  lemma {:induction false} StatusPlaces(m: Message, b: seq<byte>)
    requires Written(m, b) && m.RfqStatusUpdate?
    ensures OnTheWire(m, b)
  {
    hide HeaderAt, BlockAt, IdAt, DecAt, LongAt, WordAt, SideAt, AssetAt, VenueAt, StateAt, FlagAt, TextsTo, EntriesAt, EntriesEnd;
    var k, vs := FixedKinds(TemplateOf(m)), PartsOf(m).fixed;
    ValueFound(b, k, vs, 0);
    ValueFound(b, k, vs, 1);
    ValueFound(b, k, vs, 2);
    ValueFound(b, k, vs, 3);
    StateNumber(b, 24, m.previousState);
    StateNumber(b, 25, m.currentState);
  }

  /** An RFQ response. */
  lemma {:induction false} ResponsePlaces(m: Message, b: seq<byte>)
    requires Written(m, b) && GroupWritten(m, b) && m.template.IsRfqResponse()
    ensures OnTheWire(m, b)
  {
    hide HeaderAt, BlockAt, IdAt, DecAt, LongAt, WordAt, SideAt, AssetAt, VenueAt, StateAt, FlagAt, TextsTo, EntriesAt, EntriesEnd;
    var k, vs := FixedKinds(TemplateOf(m)), PartsOf(m).fixed;
    ValueFound(b, k, vs, 0);
    ValueFound(b, k, vs, 1);
    ValueFound(b, k, vs, 2);
    ValueFound(b, k, vs, 3);
    ValueFound(b, k, vs, 4);
    ValueFound(b, k, vs, 5);
    ValueFound(b, k, vs, 6);
    ValueFound(b, k, vs, 7);
    ValueFound(b, k, vs, 8);
    ValueFound(b, k, vs, 9);
    SideNumber(b, 40, m.side);
    StateNumber(b, 50, m.state);
    AssetNumber(b, 75, m.assetClass);
  }

  predicate GroupWritten(m: Message, b: seq<byte>) {
    && m.RfqResponse? && |b| >= 96 && Two(b, 92) == 60
    && (|m.quotes| < 0x1_0000 ==> Two(b, 94) == |m.quotes|)
    && EntriesAt(b, 96, m.quotes)
  }

  lemma {:induction false} ResponseWritten(m: Message)
    requires ValidMessage(m) && m.RfqResponse?
    ensures Written(m, Encoded(m)) && GroupWritten(m, Encoded(m))
  {
    hide FixedKinds, TailKinds, BlockAt, HeaderAt, TextsTo, EntriesEnd, EntriesAt, MessageBytes, WellTypedParts, WellTypedGroup;
    hide GroupHeaderBytes, GroupBytes, FieldsBytes, QuotesValues, HeaderBytes;
    var t, p := TemplateOf(m), PartsOf(m);
    assert WellTypedParts(t, p);
    ResponseShape(m);
    BlockWritten(t, p);
    HeaderWritten(t, p);
    TailWritten(t, p, TextsOf(m));
    MessagePieces(t, p);
    EntriesPlace(m.quotes, Encoded(m), 96);
    GroupHeaderPlace(t, |p.group|, Encoded(m));
  }

  lemma {:induction false} ResponseShape(m: Message)
    requires ValidMessage(m) && m.RfqResponse?
    ensures var t, p := TemplateOf(m), PartsOf(m);
            && t.IsRfqResponse() && BlockLength(t) == 84 && GroupHeaderSize(t) == 4
            && p.group == QuotesValues(m.quotes) && |p.group| == |m.quotes| && WellTypedGroup(p.group)
            && |TextsOf(m)| == |p.tail| == TailCount(t)
            && forall i :: 0 <= i < |TextsOf(m)| ==> p.tail[i] == Text(TextsOf(m)[i])
  {
    hide WellTypedGroup, EntryValues;
  }

  lemma {:induction false} GroupHeaderPlace(t: Template, count: nat, b: seq<byte>)
    requires t.IsRfqResponse() && |b| >= 96 && b[92..96] == GroupHeaderBytes(t, count)
    ensures Two(b, 92) == 60 && (count < 0x1_0000 ==> Two(b, 94) == count)
  {
    var length, entries := LittleEndian(QUOTE_BLOCK_LENGTH, 2), LittleEndian(count, 2);
    assert GroupHeaderBytes(t, count) == length + entries;
    hide LittleEndian, GroupHeaderBytes;
    assert b[92..96][..2] == b[92..94] && (length + entries)[..2] == length;
    assert b[92..96][2..] == b[94..96] && (length + entries)[2..] == entries;
    PlacedTwo(b, 92, QUOTE_BLOCK_LENGTH);
    if count < 0x1_0000 {
      PlacedTwo(b, 94, count);
    }
  }

  /** Every encoded message has its header, fields, quotes and texts where the
      protocol says, each value in its own bytes, and ends with its last text. */
  lemma {:induction false} EncodedOnTheWire(m: Message)
    requires ValidMessage(m)
    ensures OnTheWire(m, Encoded(m))
  {
    hide *;
    if m.RfqResponse? {
      ResponseWritten(m);
      ResponseTemplate(m);
      ResponsePlaces(m, Encoded(m));
    } else {
      PlainWritten(m);
      if m.CreateRfqRequest? {
        RequestPlaces(m, Encoded(m));
      } else if m.CancelRfqRequest? {
        CancelPlaces(m, Encoded(m));
      } else if m.ErrorResponse? {
        ErrorPlaces(m, Encoded(m));
      } else if m.ExecuteTradeResponse? {
        TradePlaces(m, Encoded(m));
      } else if m.QuoteUpdate? {
        QuotePlaces(m, Encoded(m));
      } else if m.RfqStatusUpdate? {
        StatusPlaces(m, Encoded(m));
      } else {
        IdsPlaces(m, Encoded(m));
      }
    }
  }

  lemma {:induction false} ResponseTemplate(m: Message)
    requires ValidMessage(m) && m.RfqResponse?
    ensures m.template.IsRfqResponse()
  {
  }
}
