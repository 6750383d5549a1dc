/** SBE messages as a header, a block of fixed fields, at most one repeating
    group and trailing texts. The codec walks a message's layout; the layouts
    of the fourteen message types are data. */
module SbeLayout {
  import opened Bytes
  import opened SbeFields

  const HEADER_SIZE: nat := 8
  const SCHEMA_ID: nat := 1
  const SCHEMA_VERSION: nat := 1
  const GROUP_HEADER_SIZE: nat := 4
  const MAX_GROUP: nat := 65535

  datatype Template =
    | CreateRfqRequestId | CreateRfqResponseId
    | GetRfqRequestId | GetRfqResponseId
    | CancelRfqRequestId | CancelRfqResponseId
    | ExecuteTradeRequestId | ExecuteTradeResponseId
    | SubscribeQuotesRequestId | QuoteUpdateId
    | SubscribeRfqStatusRequestId | RfqStatusUpdateId
    | UnsubscribeRequestId | ErrorResponseId
  {
    function Id(): (id: nat)
      ensures id < 256
    {
      match this
      case CreateRfqRequestId => 20
      case CreateRfqResponseId => 21
      case GetRfqRequestId => 22
      case GetRfqResponseId => 23
      case CancelRfqRequestId => 24
      case CancelRfqResponseId => 25
      case ExecuteTradeRequestId => 26
      case ExecuteTradeResponseId => 27
      case SubscribeQuotesRequestId => 30
      case QuoteUpdateId => 31
      case SubscribeRfqStatusRequestId => 32
      case RfqStatusUpdateId => 33
      case UnsubscribeRequestId => 40
      case ErrorResponseId => 50
    }

    predicate IsRfqResponse() {
      this == CreateRfqResponseId || this == GetRfqResponseId || this == CancelRfqResponseId
    }
  }

  const SIDE := CodeKind(2)
  const ASSET_CLASS := CodeKind(5)
  const RFQ_STATE := CodeKind(10)
  const VENUE_TYPE := CodeKind(5)

  /** The fields of the fixed block, in wire order. */
  function FixedKinds(t: Template): (k: seq<Kind>) {
    match t
    case CreateRfqRequestId => [UuidKind, SIDE, AmountKind, IntKind(8), ASSET_CLASS]
    case GetRfqRequestId => [UuidKind, UuidKind]
    case CancelRfqRequestId => [UuidKind, UuidKind]
    case ExecuteTradeRequestId => [UuidKind, UuidKind]
    case ExecuteTradeResponseId => [UuidKind, UuidKind, UuidKind, AmountKind, AmountKind, TimeKind]
    case SubscribeQuotesRequestId => [UuidKind]
    case SubscribeRfqStatusRequestId => [UuidKind]
    case UnsubscribeRequestId => [UuidKind]
    case QuoteUpdateId =>
      [UuidKind, UuidKind, AmountKind, AmountKind, DecimalKind, TimeKind, TimeKind, VENUE_TYPE, FlagKind]
    case RfqStatusUpdateId => [UuidKind, RFQ_STATE, RFQ_STATE, TimeKind]
    case ErrorResponseId => [UuidKind, UuidKind, IntKind(4)]
    case _ =>
      [UuidKind, UuidKind, SIDE, AmountKind, RFQ_STATE, TimeKind, TimeKind, TimeKind, ASSET_CLASS, UuidKind]
  }

  /** The fields of one entry of the quotes group: a block of 60 bytes and the
      venue id. */
  const QUOTE_KINDS: seq<Kind> :=
    [UuidKind, AmountKind, AmountKind, DecimalKind, TimeKind, TimeKind, VENUE_TYPE, TextKind]
  const QUOTE_BLOCK_LENGTH: nat := 60

  function TailCount(t: Template): nat {
    match t
    case CreateRfqRequestId => 4
    case CancelRfqRequestId => 1
    case ExecuteTradeResponseId => 2
    case QuoteUpdateId => 1
    case RfqStatusUpdateId => 1
    case ErrorResponseId => 2
    case _ => if t.IsRfqResponse() then 4 else 0
  }

  function TailKinds(t: Template): (k: seq<Kind>)
    ensures |k| == TailCount(t)
  {
    seq(TailCount(t), _ => TextKind)
  }

  function BlockLength(t: Template): nat {
    match t
    case CreateRfqRequestId => 35
    case GetRfqRequestId => 32
    case CancelRfqRequestId => 32
    case ExecuteTradeRequestId => 32
    case ExecuteTradeResponseId => 74
    case SubscribeQuotesRequestId => 16
    case SubscribeRfqStatusRequestId => 16
    case UnsubscribeRequestId => 16
    case QuoteUpdateId => 77
    case RfqStatusUpdateId => 26
    case ErrorResponseId => 36
    case _ => 84
  }

  /** The values of a message: fixed block, group entries, trailing texts. */
  datatype Parts = Parts(fixed: seq<Value>, group: seq<seq<Value>>, tail: seq<Value>)

  ghost predicate ValidKinds(kinds: seq<Kind>) {
    forall i :: 0 <= i < |kinds| ==> ValidKind(kinds[i])
  }

  ghost predicate WellTypedAll(kinds: seq<Kind>, vs: seq<Value>)
    ensures WellTypedAll(kinds, vs) ==> |vs| == |kinds|
  {
    |vs| == |kinds| && forall i :: 0 <= i < |kinds| ==> WellTyped(kinds[i], vs[i])
  }

  ghost predicate WellTypedGroup(group: seq<seq<Value>>)
    ensures WellTypedGroup(group) ==> forall i :: 0 <= i < |group| ==> |group[i]| == |QUOTE_KINDS|
  {
    forall i :: 0 <= i < |group| ==> WellTypedAll(QUOTE_KINDS, group[i])
  }

  ghost predicate WellTypedParts(t: Template, p: Parts) {
    && WellTypedAll(FixedKinds(t), p.fixed)
    && WellTypedGroup(p.group)
    && (!t.IsRfqResponse() ==> p.group == [])
    && WellTypedAll(TailKinds(t), p.tail)
  }

  predicate EncodableAll(vs: seq<Value>) {
    forall i :: 0 <= i < |vs| ==> Encodable(vs[i])
  }

  predicate EncodableGroup(group: seq<seq<Value>>) {
    forall i :: 0 <= i < |group| ==> EncodableAll(group[i])
  }

  predicate CarriedAll(vs: seq<Value>) {
    forall i :: 0 <= i < |vs| ==> Carried(vs[i])
  }

  predicate CarriedGroup(group: seq<seq<Value>>) {
    forall i :: 0 <= i < |group| ==> CarriedAll(group[i])
  }

  /** Some bytes decode to the message: the wire can carry every value and the
      group count. */
  predicate CarriedParts(p: Parts) {
    CarriedAll(p.fixed) && |p.group| <= MAX_GROUP && CarriedGroup(p.group) && CarriedAll(p.tail)
  }

  predicate RepresentableAll(vs: seq<Value>) {
    forall i :: 0 <= i < |vs| ==> Representable(vs[i])
  }

  predicate RepresentableGroup(group: seq<seq<Value>>) {
    forall i :: 0 <= i < |group| ==> RepresentableAll(group[i])
  }

  /** The message survives encoding and decoding. */
  predicate RepresentableParts(p: Parts) {
    RepresentableAll(p.fixed) && |p.group| <= MAX_GROUP && RepresentableGroup(p.group) && RepresentableAll(p.tail)
  }

  /** That is to say, the encoders accept it and the wire can carry it. */
  lemma {:induction false} RepresentableIsBoth(t: Template, p: Parts)
    requires WellTypedParts(t, p)
    ensures RepresentableParts(p) <==> CarriedParts(p) && EncodeError(p).Ok?
  {
    TextsEncodable(t, p);
    ValuesBoth(p.fixed);
    ValuesBoth(p.tail);
    forall i | 0 <= i < |p.group| ensures RepresentableAll(p.group[i]) <==> CarriedAll(p.group[i]) && EncodableAll(p.group[i]) {
      ValuesBoth(p.group[i]);
    }
    hide RepresentableAll, CarriedAll, EncodableAll;
  }

  lemma {:induction false} ValuesBoth(vs: seq<Value>)
    ensures RepresentableAll(vs) <==> CarriedAll(vs) && EncodableAll(vs)
  {
    assert forall v: Value :: Representable(v) <==> Carried(v) && Encodable(v);
  }

  lemma {:induction false} LayoutsValid(t: Template)
    ensures ValidKinds(FixedKinds(t)) && ValidKinds(QUOTE_KINDS) && ValidKinds(TailKinds(t))
  {
  }

  // ---------------------------------------------------------------------
  // Writing
  // ---------------------------------------------------------------------

  ghost function FieldsBytes(kinds: seq<Kind>, vs: seq<Value>): (b: seq<byte>)
    requires ValidKinds(kinds) && WellTypedAll(kinds, vs)
  {
    if kinds == [] then [] else FieldBytes(kinds[0], vs[0]) + FieldsBytes(kinds[1..], vs[1..])
  }

  function FieldsSize(kinds: seq<Kind>, vs: seq<Value>): nat
    requires |kinds| == |vs|
  {
    if kinds == [] then 0 else FieldSize(kinds[0], vs[0]) + FieldsSize(kinds[1..], vs[1..])
  }

  ghost function GroupBytes(group: seq<seq<Value>>): (b: seq<byte>)
    requires WellTypedGroup(group)
  {
    if group == [] then [] else FieldsBytes(QUOTE_KINDS, group[0]) + GroupBytes(group[1..])
  }

  function GroupSize(group: seq<seq<Value>>): nat
    requires forall i :: 0 <= i < |group| ==> |group[i]| == |QUOTE_KINDS|
  {
    if group == [] then 0 else FieldsSize(QUOTE_KINDS, group[0]) + GroupSize(group[1..])
  }

  function HeaderBytes(t: Template): (b: seq<byte>)
    ensures |b| == HEADER_SIZE
  {
    LittleEndian(BlockLength(t), 2) + LittleEndian(t.Id(), 2) + LittleEndian(SCHEMA_ID, 2) + LittleEndian(SCHEMA_VERSION, 2)
  }

  function GroupHeaderSize(t: Template): nat {
    if t.IsRfqResponse() then GROUP_HEADER_SIZE else 0
  }

  function GroupHeaderBytes(t: Template, count: nat): (b: seq<byte>)
    ensures |b| == GroupHeaderSize(t)
  {
    if t.IsRfqResponse() then LittleEndian(QUOTE_BLOCK_LENGTH, 2) + LittleEndian(count, 2) else []
  }

  /** `encoded_size`: what the code adds up without encoding. */
  function EncodedSize(t: Template, p: Parts): nat
    requires |p.tail| == TailCount(t)
    requires forall i :: 0 <= i < |p.group| ==> |p.group[i]| == |QUOTE_KINDS|
  {
    HEADER_SIZE + BlockLength(t) + GroupHeaderSize(t)
    + GroupSize(p.group) + FieldsSize(TailKinds(t), p.tail)
  }

  /** Why encoding fails, in the order in which the code finds out. */
  function EncodeError(p: Parts): Outcome<()> {
    if !EncodableAll(p.fixed) then Err(InvalidTimestamp)
    else if |p.group| > MAX_GROUP then Err(InvalidFieldValue)
    else if !EncodableGroup(p.group) then Err(InvalidTimestamp)
    else Ok(())
  }

  ghost function MessageBytes(t: Template, p: Parts): (b: seq<byte>)
    requires WellTypedParts(t, p)
  {
    LayoutsValid(t);
    HeaderBytes(t) + (FieldsBytes(FixedKinds(t), p.fixed)
    + (GroupHeaderBytes(t, |p.group|) + (GroupBytes(p.group) + FieldsBytes(TailKinds(t), p.tail))))
  }

  lemma {:induction false} TextsEncodable(t: Template, p: Parts)
    requires WellTypedParts(t, p)
    ensures EncodableAll(p.tail)
  {
  }

  // ---------------------------------------------------------------------
  // Reading
  // ---------------------------------------------------------------------

  /** Reads fields one after the other and says how many bytes they took. */
  function ReadFields(kinds: seq<Kind>, rest: seq<byte>, offset: nat): (r: Outcome<(seq<Value>, nat)>)
    requires ValidKinds(kinds)
    ensures r.Ok? ==> r.value.1 <= |rest|
  {
    if kinds == [] then Ok(([], 0))
    else
      var (v, n) :- ReadField(kinds[0], rest, offset);
      var (vs, m) :- ReadFields(kinds[1..], rest[n..], offset + n);
      Ok(([v] + vs, n + m))
  }

  function ReadGroup(count: nat, rest: seq<byte>, offset: nat): (r: Outcome<(seq<seq<Value>>, nat)>)
    ensures r.Ok? ==> r.value.1 <= |rest|
    decreases count
  {
    if count == 0 then Ok(([], 0))
    else
      var (entry, n) :- ReadFields(QUOTE_KINDS, rest, offset);
      var (entries, m) :- ReadGroup(count - 1, rest[n..], offset + n);
      Ok(([entry] + entries, n + m))
  }

  /** The group, if the message has one: its header, then its entries. */
  function ReadGroupOf(t: Template, rest: seq<byte>, offset: nat): (r: Outcome<(seq<seq<Value>>, nat)>)
    ensures r.Ok? ==> r.value.1 <= |rest|
  {
    if !t.IsRfqResponse() then Ok(([], 0))
    else if |rest| < GROUP_HEADER_SIZE then Err(BufferTooSmall(offset + GROUP_HEADER_SIZE, offset + |rest|))
    else if FromLittleEndian(rest[..2]) != QUOTE_BLOCK_LENGTH then Err(InvalidHeader)
    else
      var (group, n) :- ReadGroup(FromLittleEndian(rest[2..4]), rest[4..], offset + 4);
      Ok((group, n + 4))
  }

  /** Reads a message of template t and says how many bytes it took. */
  function ReadMessage(t: Template, b: seq<byte>): (r: Outcome<(Parts, nat)>)
    ensures r.Ok? ==> r.value.1 <= |b|
  {
    LayoutsValid(t);
    if |b| < HEADER_SIZE then Err(BufferTooSmall(HEADER_SIZE, |b|))
    else if FromLittleEndian(b[2..4]) != t.Id() then Err(UnknownTemplateId(FromLittleEndian(b[2..4])))
    else
      var (fixed, n) :- ReadFields(FixedKinds(t), b[8..], 8);
      var (group, m) :- ReadGroupOf(t, b[8 + n..], 8 + n);
      var (tail, k) :- ReadFields(TailKinds(t), b[8 + n + m..], 8 + n + m);
      Ok((Parts(fixed, group, tail), 8 + n + m + k))
  }

  // ---------------------------------------------------------------------
  // Exact sizes
  // ---------------------------------------------------------------------

  lemma {:induction false} FieldsBytesSize(kinds: seq<Kind>, vs: seq<Value>)
    requires ValidKinds(kinds) && WellTypedAll(kinds, vs)
    ensures |FieldsBytes(kinds, vs)| == FieldsSize(kinds, vs)
  {
    if kinds != [] {
      FieldBytesSize(kinds[0], vs[0]);
      FieldsBytesSize(kinds[1..], vs[1..]);
    }
  }

  lemma {:induction false} GroupBytesSize(group: seq<seq<Value>>)
    requires WellTypedGroup(group)
    ensures |GroupBytes(group)| == GroupSize(group)
  {
    if group != [] {
      FieldsBytesSize(QUOTE_KINDS, group[0]);
      GroupBytesSize(group[1..]);
    }
  }

  function FixedSize(kind: Kind): nat {
    match kind
    case UuidKind => 16
    case CodeKind(_) => 1
    case FlagKind => 1
    case AmountKind => 9
    case DecimalKind => 9
    case IntKind(width) => width
    case TimeKind => 8
    case TextKind => 0
  }

  function FixedSizes(kinds: seq<Kind>): nat {
    if kinds == [] then 0 else FixedSize(kinds[0]) + FixedSizes(kinds[1..])
  }

  lemma {:induction false} FixedFieldsSize(kinds: seq<Kind>, vs: seq<Value>)
    requires |kinds| == |vs| && forall i :: 0 <= i < |kinds| ==> !kinds[i].TextKind?
    ensures FieldsSize(kinds, vs) == FixedSizes(kinds)
  {
    if kinds != [] {
      FixedFieldsSize(kinds[1..], vs[1..]);
    }
  }

  lemma {:induction false} BlockLengthsExact(t: Template)
    ensures FixedSizes(FixedKinds(t)) == BlockLength(t)
    ensures FixedSizes(QUOTE_KINDS) == QUOTE_BLOCK_LENGTH
    ensures forall i :: 0 <= i < |FixedKinds(t)| ==> !FixedKinds(t)[i].TextKind?
  {
    Unroll(FixedKinds(t));
    Unroll(QUOTE_KINDS);
  }

  /** Adds up to ten sizes. */
  lemma {:induction false} Unroll(k: seq<Kind>)
    requires |k| <= 10
    ensures FixedSizes(k) ==
            (if |k| > 0 then FixedSize(k[0]) else 0) + (if |k| > 1 then FixedSize(k[1]) else 0)
            + (if |k| > 2 then FixedSize(k[2]) else 0) + (if |k| > 3 then FixedSize(k[3]) else 0)
            + (if |k| > 4 then FixedSize(k[4]) else 0) + (if |k| > 5 then FixedSize(k[5]) else 0)
            + (if |k| > 6 then FixedSize(k[6]) else 0) + (if |k| > 7 then FixedSize(k[7]) else 0)
            + (if |k| > 8 then FixedSize(k[8]) else 0) + (if |k| > 9 then FixedSize(k[9]) else 0)
  {
    if k != [] {
      Unroll(k[1..]);
    }
  }

  /** Whatever encodes takes exactly `encoded_size` bytes, and its fixed part
      exactly the block length that its header states. */
  lemma {:induction false} MessageBytesExact(t: Template, p: Parts)
    requires WellTypedParts(t, p)
    ensures |MessageBytes(t, p)| == EncodedSize(t, p)
    ensures ValidKinds(FixedKinds(t)) && |FieldsBytes(FixedKinds(t), p.fixed)| == BlockLength(t)
  {
    LayoutsValid(t);
    FieldsBytesSize(FixedKinds(t), p.fixed);
    BlockLengthsExact(t);
    FixedFieldsSize(FixedKinds(t), p.fixed);
    GroupBytesSize(p.group);
    FieldsBytesSize(TailKinds(t), p.tail);
  }

  // ---------------------------------------------------------------------
  // Round trip
  // ---------------------------------------------------------------------

  lemma {:induction false} FieldsRoundTrip(kinds: seq<Kind>, vs: seq<Value>, post: seq<byte>, offset: nat)
    requires ValidKinds(kinds) && WellTypedAll(kinds, vs) && CarriedAll(vs)
    ensures ReadFields(kinds, FieldsBytes(kinds, vs) + post, offset) == Ok((vs, |FieldsBytes(kinds, vs)|))
  {
    hide ReadField, ReadFields, FieldBytes, FieldSize, Carried, WellTyped, ValidKind;
    FieldsUnfold(kinds, FieldsBytes(kinds, vs) + post, offset);
    if kinds == [] {
      assert [] + post == post;
    } else {
      var first, others := FieldBytes(kinds[0], vs[0]), FieldsBytes(kinds[1..], vs[1..]);
      FieldRoundTrip(kinds[0], vs[0], others + post, offset);
      FieldBytesSize(kinds[0], vs[0]);
      assert FieldsBytes(kinds, vs) + post == first + (others + post);
      assert (first + (others + post))[|first|..] == others + post;
      FieldsRoundTrip(kinds[1..], vs[1..], post, offset + |first|);
      assert [vs[0]] + vs[1..] == vs;
    }
  }

  /** Reading fields is reading the first and then the others. */
  lemma {:induction false} FieldsUnfold(kinds: seq<Kind>, rest: seq<byte>, offset: nat)
    requires ValidKinds(kinds)
    ensures kinds == [] ==> ReadFields(kinds, rest, offset) == Ok(([], 0))
    ensures kinds != [] ==>
              var first := ReadField(kinds[0], rest, offset);
              && ValidKind(kinds[0]) && ValidKinds(kinds[1..])
              && (first.Ok? ==> first.value.1 <= |rest|)
              && (ReadFields(kinds, rest, offset).Ok? ==> first.Ok?)
              && (first.Ok? ==>
                    var others := ReadFields(kinds[1..], rest[first.value.1..], offset + first.value.1);
                    ReadFields(kinds, rest, offset) ==
                    if others.Ok? then Ok(([first.value.0] + others.value.0, first.value.1 + others.value.1)) else others)
  {
    hide ReadField;
  }

  /** A group is its first entry and then the rest of it. */
  lemma {:induction false} GroupUnfolds(count: nat, rest: seq<byte>, offset: nat)
    ensures ValidKinds(QUOTE_KINDS)
    ensures count == 0 ==> ReadGroup(count, rest, offset) == Ok(([], 0))
    ensures var first := ReadFields(QUOTE_KINDS, rest, offset);
            && (count > 0 && ReadGroup(count, rest, offset).Ok? ==> first.Ok?)
            && (count > 0 && first.Ok? ==>
                  var others := ReadGroup(count - 1, rest[first.value.1..], offset + first.value.1);
                  ReadGroup(count, rest, offset) ==
                  if others.Ok? then Ok(([first.value.0] + others.value.0, first.value.1 + others.value.1)) else others)
  {
    hide ReadFields;
  }

  lemma {:induction false} GroupRoundTrip(group: seq<seq<Value>>, post: seq<byte>, offset: nat)
    requires WellTypedGroup(group) && CarriedGroup(group)
    ensures ReadGroup(|group|, GroupBytes(group) + post, offset) == Ok((group, |GroupBytes(group)|))
  {
    hide ReadFields, FieldsBytes, CarriedAll, WellTypedAll, ReadGroup;
    GroupUnfolds(|group|, GroupBytes(group) + post, offset);
    if group != [] {
      var first, others := FieldsBytes(QUOTE_KINDS, group[0]), GroupBytes(group[1..]);
      FieldsRoundTrip(QUOTE_KINDS, group[0], others + post, offset);
      assert GroupBytes(group) + post == first + (others + post);
      assert (first + (others + post))[|first|..] == others + post;
      GroupRoundTrip(group[1..], post, offset + |first|);
      assert [group[0]] + group[1..] == group;
    }
  }

  lemma {:induction false} GroupOfRoundTrip(t: Template, p: Parts, post: seq<byte>, offset: nat)
    requires WellTypedParts(t, p) && CarriedParts(p)
    ensures var bytes := GroupHeaderBytes(t, |p.group|) + GroupBytes(p.group);
            ReadGroupOf(t, bytes + post, offset) == Ok((p.group, |bytes|))
  {
    hide ReadGroup, LittleEndian, FromLittleEndian, Pow256, WellTypedAll, CarriedAll;
    if t.IsRfqResponse() {
      var size, count := LittleEndian(QUOTE_BLOCK_LENGTH, 2), LittleEndian(|p.group|, 2);
      var entries := GroupBytes(p.group);
      PowValues();
      LittleEndianRoundTrip(QUOTE_BLOCK_LENGTH, 2);
      LittleEndianRoundTrip(|p.group|, 2);
      GroupRoundTrip(p.group, post, offset + 4);
      hide GroupBytes;
      var all := size + count + entries + post;
      assert all[..2] == size && all[2..4] == count && all[4..] == entries + post;
    }
  }

  lemma {:induction false} HeaderReadBack(t: Template, post: seq<byte>)
    ensures FromLittleEndian((HeaderBytes(t) + post)[2..4]) == t.Id()
  {
    PowValues();
    LittleEndianRoundTrip(t.Id(), 2);
    assert (HeaderBytes(t) + post)[2..4] == LittleEndian(t.Id(), 2);
  }

  /** Round trip: any message that the wire can carry, followed by anything,
      reads back as itself and uses up exactly its own bytes. */
  lemma {:induction false} MessageRoundTrip(t: Template, p: Parts, post: seq<byte>)
    requires WellTypedParts(t, p) && CarriedParts(p)
    ensures ReadMessage(t, MessageBytes(t, p) + post) == Ok((p, |MessageBytes(t, p)|))
  {
    hide *;
    MessageShape(t, p);
    var fixed, tail := FieldsBytes(FixedKinds(t), p.fixed), FieldsBytes(TailKinds(t), p.tail);
    var head, group := HeaderBytes(t), GroupHeaderBytes(t, |p.group|) + GroupBytes(p.group);
    Slices(head, fixed, group, tail, post);
    HeaderReadBack(t, fixed + (group + (tail + post)));
    FieldsRoundTrip(FixedKinds(t), p.fixed, group + (tail + post), 8);
    GroupOfRoundTrip(t, p, tail + post, 8 + |fixed|);
    FieldsRoundTrip(TailKinds(t), p.tail, post, 8 + |fixed| + |group|);
    ReadPieces(t, MessageBytes(t, p) + post, p, |fixed|, |group|, |tail|);
  }

  lemma {:induction false} MessageShape(t: Template, p: Parts)
    requires WellTypedParts(t, p) && CarriedParts(p)
    ensures CarriedAll(p.fixed) && CarriedAll(p.tail)
    ensures WellTypedAll(FixedKinds(t), p.fixed) && WellTypedAll(TailKinds(t), p.tail)
    ensures WellTypedGroup(p.group)
    ensures ValidKinds(FixedKinds(t)) && ValidKinds(TailKinds(t))
    ensures |HeaderBytes(t)| == HEADER_SIZE == 8
    ensures MessageBytes(t, p) == HeaderBytes(t) + (FieldsBytes(FixedKinds(t), p.fixed)
              + ((GroupHeaderBytes(t, |p.group|) + GroupBytes(p.group)) + FieldsBytes(TailKinds(t), p.tail)))
  {
    LayoutsValid(t);
    hide FixedKinds, TailKinds, HeaderBytes, GroupHeaderBytes;
    Regroup(FieldsBytes(FixedKinds(t), p.fixed), GroupHeaderBytes(t, |p.group|), GroupBytes(p.group), FieldsBytes(TailKinds(t), p.tail));
  }

  /** Reading a message is reading its pieces where the previous one ends. */
  lemma {:induction false} ReadPieces(t: Template, b: seq<byte>, p: Parts, n: nat, m: nat, k: nat)
    requires ValidKinds(FixedKinds(t)) && ValidKinds(TailKinds(t))
    requires 8 + n + m <= |b| && FromLittleEndian(b[2..4]) == t.Id()
    requires ReadFields(FixedKinds(t), b[8..], 8) == Ok((p.fixed, n))
    requires ReadGroupOf(t, b[8 + n..], 8 + n) == Ok((p.group, m))
    requires ReadFields(TailKinds(t), b[8 + n + m..], 8 + n + m) == Ok((p.tail, k))
    ensures ReadMessage(t, b) == Ok((p, 8 + n + m + k))
  {
    hide FixedKinds, TailKinds, ReadFields, ReadGroupOf, FromLittleEndian;
  }

  lemma {:induction false} Regroup(a: seq<byte>, b: seq<byte>, c: seq<byte>, d: seq<byte>)
    ensures a + (b + (c + d)) == a + ((b + c) + d)
  {
  }

  lemma {:induction false} Slices(head: seq<byte>, a: seq<byte>, c: seq<byte>, d: seq<byte>, post: seq<byte>)
    ensures var b := head + (a + (c + d)) + post;
            && b == head + (a + (c + (d + post)))
            && b[|head|..] == a + (c + (d + post))
            && b[|head| + |a|..] == c + (d + post)
            && b[|head| + |a| + |c|..] == d + post
  {
  }
}
