/** What the SBE codec guarantees about whole messages. */
module SbeProperties {
  import opened Bytes
  import opened SbeFields
  import opened SbeLayout

  // ---------------------------------------------------------------------
  // Reading looks at nothing behind the message
  // ---------------------------------------------------------------------

  lemma {:induction false} FieldsIgnoreTail(kinds: seq<Kind>, rest: seq<byte>, more: seq<byte>, offset: nat)
    requires ValidKinds(kinds) && ReadFields(kinds, rest, offset).Ok?
    ensures ReadFields(kinds, rest + more, offset) == ReadFields(kinds, rest, offset)
  {
    hide *;
    FieldsUnfold(kinds, rest, offset);
    FieldsUnfold(kinds, rest + more, offset);
    if kinds != [] {
      var n := ReadField(kinds[0], rest, offset).value.1;
      ReadIgnoresTail(kinds[0], rest, more, offset);
      assert (rest + more)[n..] == rest[n..] + more;
      FieldsIgnoreTail(kinds[1..], rest[n..], more, offset + n);
    }
  }

  lemma {:induction false} GroupIgnoresTail(count: nat, rest: seq<byte>, more: seq<byte>, offset: nat)
    requires ReadGroup(count, rest, offset).Ok?
    ensures ReadGroup(count, rest + more, offset) == ReadGroup(count, rest, offset)
  {
    hide *;
    GroupUnfolds(count, rest, offset);
    GroupUnfolds(count, rest + more, offset);
    if count > 0 {
      var n := ReadFields(QUOTE_KINDS, rest, offset).value.1;
      FieldsIgnoreTail(QUOTE_KINDS, rest, more, offset);
      assert (rest + more)[n..] == rest[n..] + more;
      GroupIgnoresTail(count - 1, rest[n..], more, offset + n);
    }
  }

  lemma {:induction false} GroupOfIgnoresTail(t: Template, rest: seq<byte>, more: seq<byte>, offset: nat)
    requires ReadGroupOf(t, rest, offset).Ok?
    ensures ReadGroupOf(t, rest + more, offset) == ReadGroupOf(t, rest, offset)
  {
    hide ReadGroup, FromLittleEndian;
    if t.IsRfqResponse() {
      var all := rest + more;
      assert all[..2] == rest[..2] && all[2..4] == rest[2..4] && all[4..] == rest[4..] + more;
      GroupIgnoresTail(FromLittleEndian(rest[2..4]), rest[4..], more, offset + 4);
    }
  }

  lemma {:induction false} MessageIgnoresTail(t: Template, b: seq<byte>, more: seq<byte>)
    requires ReadMessage(t, b).Ok?
    ensures ReadMessage(t, b + more) == ReadMessage(t, b)
  {
    LayoutsValid(t);
    hide ReadFields, ReadGroupOf, FromLittleEndian, FixedKinds, TailKinds;
    var all := b + more;
    assert all[2..4] == b[2..4];
    var n := ReadFields(FixedKinds(t), b[8..], 8).value.1;
    FieldsIgnoreTail(FixedKinds(t), b[8..], more, 8);
    assert all[8..] == b[8..] + more;
    var m := ReadGroupOf(t, b[8 + n..], 8 + n).value.1;
    GroupOfIgnoresTail(t, b[8 + n..], more, 8 + n);
    assert all[8 + n..] == b[8 + n..] + more;
    FieldsIgnoreTail(TailKinds(t), b[8 + n + m..], more, 8 + n + m);
    assert all[8 + n + m..] == b[8 + n + m..] + more;
  }

  /** Of the header a decoder looks at the message id only: block length, schema
      and version may say anything. */
  lemma {:induction false} HeaderIgnored(t: Template, b: seq<byte>, c: seq<byte>)
    requires |b| >= HEADER_SIZE && |c| >= HEADER_SIZE && b[2..4] == c[2..4] && b[8..] == c[8..]
    ensures ReadMessage(t, b) == ReadMessage(t, c)
  {
    LayoutsValid(t);
    hide ReadFields, ReadGroupOf, FromLittleEndian, FixedKinds, TailKinds;
    assert |b| == |c|;
    forall i | 8 <= i <= |b| ensures b[i..] == c[i..] {
      assert b[i..] == b[8..][i - 8..] && c[i..] == c[8..][i - 8..];
    }
  }

  lemma {:induction false} TemplateIdsDistinct(t: Template, u: Template)
    ensures t.Id() == u.Id() <==> t == u
  {
  }

  /** The decoder of any other message type rejects an encoding, by its id. */
  lemma {:induction false} OtherTypeRejects(t: Template, u: Template, p: Parts, post: seq<byte>)
    requires WellTypedParts(t, p) && t != u
    ensures ReadMessage(u, MessageBytes(t, p) + post) == Err(UnknownTemplateId(t.Id()))
  {
    hide FromLittleEndian, ReadFields, ReadGroupOf, FieldsBytes, GroupBytes, GroupHeaderBytes, HeaderBytes;
    var rest := MessageBytes(t, p)[HEADER_SIZE..];
    assert MessageBytes(t, p) + post == HeaderBytes(t) + (rest + post);
    HeaderReadBack(t, rest + post);
    TemplateIdsDistinct(t, u);
  }

  // ---------------------------------------------------------------------
  // What decoding can yield
  // ---------------------------------------------------------------------

  lemma {:induction false} FieldsYield(kinds: seq<Kind>, rest: seq<byte>, offset: nat)
    requires ValidKinds(kinds) && ReadFields(kinds, rest, offset).Ok?
    ensures var vs := ReadFields(kinds, rest, offset).value.0; WellTypedAll(kinds, vs) && CarriedAll(vs)
  {
    hide ReadField, WellTyped, Carried;
    if kinds != [] {
      var (v, n) := ReadField(kinds[0], rest, offset).value;
      ReadIsWellTyped(kinds[0], rest, offset);
      FieldsYield(kinds[1..], rest[n..], offset + n);
    }
  }

  lemma {:induction false} GroupYields(count: nat, rest: seq<byte>, offset: nat)
    requires ReadGroup(count, rest, offset).Ok?
    ensures var g := ReadGroup(count, rest, offset).value.0;
            |g| == count && WellTypedGroup(g) && CarriedGroup(g)
  {
    hide ReadFields, WellTypedAll, CarriedAll;
    if count > 0 {
      var (entry, n) := ReadFields(QUOTE_KINDS, rest, offset).value;
      FieldsYield(QUOTE_KINDS, rest, offset);
      GroupYields(count - 1, rest[n..], offset + n);
    }
  }

  lemma {:induction false} GroupOfYields(t: Template, rest: seq<byte>, offset: nat)
    requires ReadGroupOf(t, rest, offset).Ok?
    ensures var g := ReadGroupOf(t, rest, offset).value.0;
            && |g| <= MAX_GROUP && WellTypedGroup(g) && (!t.IsRfqResponse() ==> g == [])
            && CarriedGroup(g)
  {
    hide ReadGroup, FromLittleEndian, WellTypedAll;
    if t.IsRfqResponse() {
      LittleEndianOnto(rest[2..4]);
      PowValues();
      GroupYields(FromLittleEndian(rest[2..4]), rest[4..], offset + 4);
    }
  }

  /** Decoding arbitrary bytes only ever yields a well-typed message that the
      wire can carry. */
  lemma {:induction false} MessageYields(t: Template, b: seq<byte>)
    requires ReadMessage(t, b).Ok?
    ensures var p := ReadMessage(t, b).value.0; WellTypedParts(t, p) && CarriedParts(p)
  {
    LayoutsValid(t);
    hide ReadFields, ReadGroupOf, FromLittleEndian, FixedKinds, TailKinds, WellTypedAll, CarriedAll;
    var n := ReadFields(FixedKinds(t), b[8..], 8).value.1;
    FieldsYield(FixedKinds(t), b[8..], 8);
    var m := ReadGroupOf(t, b[8 + n..], 8 + n).value.1;
    GroupOfYields(t, b[8 + n..], 8 + n);
    FieldsYield(TailKinds(t), b[8 + n + m..], 8 + n + m);
  }

  /** Exactly those messages are what some bytes decode to. */
  lemma {:induction false} DecodableExactly(t: Template, p: Parts)
    ensures (exists b: seq<byte> :: ReadMessage(t, b).Ok? && ReadMessage(t, b).value.0 == p)
            <==> WellTypedParts(t, p) && CarriedParts(p)
  {
    hide *;
    if b: seq<byte> :| ReadMessage(t, b).Ok? && ReadMessage(t, b).value.0 == p {
      MessageYields(t, b);
    }
    if WellTypedParts(t, p) && CarriedParts(p) {
      MessageRoundTrip(t, p, []);
    }
  }

  /** A message survives encoding and decoding exactly when every decimal fits
      64 bits, every timestamp is neither negative nor too late, every text is
      shorter than 4 GiB and there are at most 65535 quotes. */
  lemma {:induction false} SurvivesExactlyWhenRepresentable(t: Template, p: Parts, post: seq<byte>)
    requires WellTypedParts(t, p)
    ensures (EncodeError(p).Ok? && ReadMessage(t, MessageBytes(t, p) + post) == Ok((p, |MessageBytes(t, p)|)))
            <==> RepresentableParts(p)
  {
    hide *;
    RepresentableIsBoth(t, p);
    if CarriedParts(p) {
      MessageRoundTrip(t, p, post);
    }
    if ReadMessage(t, MessageBytes(t, p) + post) == Ok((p, |MessageBytes(t, p)|)) {
      MessageYields(t, MessageBytes(t, p) + post);
    }
  }

  // ---------------------------------------------------------------------
  // Encoding what was decoded
  // ---------------------------------------------------------------------

  predicate NoNegativeTime(vs: seq<Value>) {
    forall i :: 0 <= i < |vs| ==> vs[i].Time? ==> vs[i].nanos >= 0
  }

  predicate NoNegativeTimeInParts(p: Parts) {
    NoNegativeTime(p.fixed) && forall i :: 0 <= i < |p.group| ==> NoNegativeTime(p.group[i])
  }

  /** What was decoded can be encoded again exactly when no timestamp in it is
      negative, and then survives. */
  lemma {:induction false} DecodedReencodes(t: Template, b: seq<byte>)
    requires ReadMessage(t, b).Ok?
    ensures var p := ReadMessage(t, b).value.0;
            && EncodeError(p) == (if NoNegativeTimeInParts(p) then Ok(()) else Err(InvalidTimestamp))
            && (RepresentableParts(p) <==> NoNegativeTimeInParts(p))
  {
    hide *;
    MessageYields(t, b);
    var p := ReadMessage(t, b).value.0;
    RepresentableIsBoth(t, p);
    CarriedEncodes(p);
  }

  lemma {:induction false} CarriedEncodes(p: Parts)
    requires CarriedParts(p)
    ensures EncodeError(p) == if NoNegativeTimeInParts(p) then Ok(()) else Err(InvalidTimestamp)
  {
    hide Fits, Pow256;
    CarriedTimes(p.fixed);
    forall i | 0 <= i < |p.group| ensures EncodableAll(p.group[i]) <==> NoNegativeTime(p.group[i]) {
      CarriedTimes(p.group[i]);
    }
    hide CarriedAll, EncodableAll, NoNegativeTime;
  }

  lemma {:induction false} CarriedTimes(vs: seq<Value>)
    requires CarriedAll(vs)
    ensures EncodableAll(vs) <==> NoNegativeTime(vs)
  {
    hide Fits, Pow256;
    assert forall i :: 0 <= i < |vs| ==> Carried(vs[i]);
  }
}
