/** When decoding ends in a panic, where the decoders index one-byte fields and
    build decimals without a check, and what a failed read reports. */
module SbePanics {
  import opened Bytes
  import opened SbeFields
  import opened SbeLayout

  /** The field has one byte and the buffer ends, or it is a decimal with more
      places than a decimal can have. */
  predicate FieldPanics(kind: Kind, rest: seq<byte>) {
    || ((kind.CodeKind? || kind.FlagKind?) && rest == [])
    || ((kind.AmountKind? || kind.DecimalKind?) && |rest| >= 9 && Signed(rest[8], 1) < -(MAX_SCALE as int))
  }

  lemma {:induction false} FieldPanicsExactly(kind: Kind, rest: seq<byte>, offset: nat)
    requires ValidKind(kind)
    ensures ReadField(kind, rest, offset).Panic? <==> FieldPanics(kind, rest)
  {
    hide LittleEndian, FromLittleEndian, Pow256, ValidUtf8, Fits, Pow10;
    PowValues();
  }

  /** Some field panics, and all fields before it read. */
  ghost predicate FieldsPanic(kinds: seq<Kind>, rest: seq<byte>, offset: nat)
    requires ValidKinds(kinds)
  {
    exists i :: 0 <= i < |kinds| && PanicsAt(kinds, i, rest, offset)
  }

  ghost predicate PanicsAt(kinds: seq<Kind>, i: nat, rest: seq<byte>, offset: nat)
    requires ValidKinds(kinds) && i < |kinds|
  {
    var before := ReadFields(kinds[..i], rest, offset);
    before.Ok? && FieldPanics(kinds[i], rest[before.value.1..])
  }

  lemma {:induction false} PanicsAtFirst(kinds: seq<Kind>, rest: seq<byte>, offset: nat)
    requires ValidKinds(kinds) && kinds != []
    ensures PanicsAt(kinds, 0, rest, offset) <==> FieldPanics(kinds[0], rest)
  {
    hide ReadField, FieldPanics;
    assert kinds[..0] == [];
  }

  lemma {:induction false} PanicsAtLater(kinds: seq<Kind>, i: nat, rest: seq<byte>, offset: nat)
    requires ValidKinds(kinds) && 0 < i < |kinds|
    ensures var first := ReadField(kinds[0], rest, offset);
            PanicsAt(kinds, i, rest, offset) <==>
            first.Ok? && PanicsAt(kinds[1..], i - 1, rest[first.value.1..], offset + first.value.1)
  {
    hide ReadField, FieldPanics;
    var first := ReadField(kinds[0], rest, offset);
    assert kinds[..i][1..] == kinds[1..][..i - 1] && kinds[..i][0] == kinds[0];
    if first.Ok? {
      var n := first.value.1;
      var later := ReadFields(kinds[1..][..i - 1], rest[n..], offset + n);
      if later.Ok? {
        assert rest[n..][later.value.1..] == rest[n + later.value.1..];
      }
    }
  }

  lemma {:induction false} FieldsPanicExactly(kinds: seq<Kind>, rest: seq<byte>, offset: nat)
    requires ValidKinds(kinds)
    ensures ReadFields(kinds, rest, offset).Panic? <==> FieldsPanic(kinds, rest, offset)
  {
    hide ReadField, FieldPanics, PanicsAt;
    if kinds != [] {
      var first := ReadField(kinds[0], rest, offset);
      FieldPanicsExactly(kinds[0], rest, offset);
      PanicsAtFirst(kinds, rest, offset);
      forall i | 0 < i < |kinds|
        ensures PanicsAt(kinds, i, rest, offset) <==>
                first.Ok? && PanicsAt(kinds[1..], i - 1, rest[first.value.1..], offset + first.value.1)
      {
        PanicsAtLater(kinds, i, rest, offset);
      }
      if first.Ok? {
        var others, after, next := kinds[1..], rest[first.value.1..], offset + first.value.1;
        FieldsPanicExactly(others, after, next);
        if j :| 0 <= j < |others| && PanicsAt(others, j, after, next) {
          assert PanicsAt(kinds, j + 1, rest, offset);
        }
      }
    }
  }

  /** Some entry of the group has a field that panics, and all before it read. */
  ghost predicate GroupPanics(count: nat, rest: seq<byte>, offset: nat)
    requires ValidKinds(QUOTE_KINDS)
  {
    exists j :: 0 <= j < count && EntryPanics(j, rest, offset)
  }

  ghost predicate EntryPanics(j: nat, rest: seq<byte>, offset: nat)
    requires ValidKinds(QUOTE_KINDS)
  {
    var before := ReadGroup(j, rest, offset);
    before.Ok? && FieldsPanic(QUOTE_KINDS, rest[before.value.1..], offset + before.value.1)
  }

  lemma {:induction false} EntryPanicsFirst(rest: seq<byte>, offset: nat)
    requires ValidKinds(QUOTE_KINDS)
    ensures EntryPanics(0, rest, offset) <==> FieldsPanic(QUOTE_KINDS, rest, offset)
  {
    hide ReadFields, FieldsPanic;
    assert rest[0..] == rest;
  }

  lemma {:induction false} EntryPanicsLater(j: nat, rest: seq<byte>, offset: nat)
    requires ValidKinds(QUOTE_KINDS) && j > 0
    ensures var first := ReadFields(QUOTE_KINDS, rest, offset);
            EntryPanics(j, rest, offset) <==>
            first.Ok? && EntryPanics(j - 1, rest[first.value.1..], offset + first.value.1)
  {
    hide ReadFields, ReadGroup, FieldsPanic;
    GroupUnfolds(j, rest, offset);
    var first := ReadFields(QUOTE_KINDS, rest, offset);
    if first.Ok? {
      var n := first.value.1;
      var later := ReadGroup(j - 1, rest[n..], offset + n);
      if later.Ok? {
        assert rest[n..][later.value.1..] == rest[n + later.value.1..];
      }
    }
  }

  lemma {:induction false} GroupPanicsExactly(count: nat, rest: seq<byte>, offset: nat)
    requires ValidKinds(QUOTE_KINDS)
    ensures ReadGroup(count, rest, offset).Panic? <==> GroupPanics(count, rest, offset)
  {
    hide ReadFields, FieldsPanic, EntryPanics;
    if count > 0 {
      var first := ReadFields(QUOTE_KINDS, rest, offset);
      FieldsPanicExactly(QUOTE_KINDS, rest, offset);
      EntryPanicsFirst(rest, offset);
      forall j | 0 < j < count
        ensures EntryPanics(j, rest, offset) <==>
                first.Ok? && EntryPanics(j - 1, rest[first.value.1..], offset + first.value.1)
      {
        EntryPanicsLater(j, rest, offset);
      }
      if first.Ok? {
        var after, next := rest[first.value.1..], offset + first.value.1;
        GroupPanicsExactly(count - 1, after, next);
        if j :| 0 <= j < count - 1 && EntryPanics(j, after, next) {
          assert EntryPanics(j + 1, rest, offset);
        }
      }
    }
  }

  /** The group of a response, behind its header. */
  ghost predicate GroupOfPanics(t: Template, rest: seq<byte>, offset: nat)
    requires ValidKinds(QUOTE_KINDS)
  {
    && t.IsRfqResponse()
    && |rest| >= GROUP_HEADER_SIZE
    && FromLittleEndian(rest[..2]) == QUOTE_BLOCK_LENGTH
    && GroupPanics(FromLittleEndian(rest[2..4]), rest[4..], offset + 4)
  }

  lemma {:induction false} TextsNeverPanic(t: Template, rest: seq<byte>, offset: nat)
    requires ValidKinds(TailKinds(t))
    ensures !ReadFields(TailKinds(t), rest, offset).Panic?
  {
    FieldsPanicExactly(TailKinds(t), rest, offset);
    hide ReadFields;
  }

  /** Decoding panics exactly when the header fits, everything before some field
      reads, and that field has one byte and the buffer ends there, or it is a
      decimal with an exponent below -28. */
  lemma {:induction false} DecodePanicsExactly(t: Template, b: seq<byte>)
    ensures ValidKinds(FixedKinds(t)) && ValidKinds(QUOTE_KINDS)
    ensures ReadMessage(t, b).Panic? <==>
            && |b| >= HEADER_SIZE && FromLittleEndian(b[2..4]) == t.Id()
            && (|| FieldsPanic(FixedKinds(t), b[8..], 8)
                || var fixed := ReadFields(FixedKinds(t), b[8..], 8);
                   fixed.Ok? && GroupOfPanics(t, b[8 + fixed.value.1..], 8 + fixed.value.1))
  {
    hide *;
    MessagePanics(t, b);
    if |b| >= HEADER_SIZE {
      FieldsPanicExactly(FixedKinds(t), b[8..], 8);
      var fixed := ReadFields(FixedKinds(t), b[8..], 8);
      if fixed.Ok? {
        var n := fixed.value.1;
        GroupOfPanicsExactly(t, b[8 + n..], 8 + n);
        var group := ReadGroupOf(t, b[8 + n..], 8 + n);
        if group.Ok? {
          TextsNeverPanic(t, b[8 + n + group.value.1..], 8 + n + group.value.1);
        }
      }
    }
  }

  lemma {:induction false} MessagePanics(t: Template, b: seq<byte>)
    ensures ValidKinds(FixedKinds(t)) && ValidKinds(QUOTE_KINDS) && ValidKinds(TailKinds(t)) && HEADER_SIZE == 8
    ensures ReadMessage(t, b).Panic? <==>
            && |b| >= HEADER_SIZE && FromLittleEndian(b[2..4]) == t.Id()
            && var fixed := ReadFields(FixedKinds(t), b[8..], 8);
            && (fixed.Panic? ||
                (fixed.Ok? &&
                 var at := 8 + fixed.value.1;
                 var group := ReadGroupOf(t, b[at..], at);
                 group.Panic? || (group.Ok? && ReadFields(TailKinds(t), b[at + group.value.1..], at + group.value.1).Panic?)))
  {
    LayoutsValid(t);
    hide ReadFields, ReadGroupOf, FromLittleEndian, FixedKinds, TailKinds, ValidKinds;
  }

  lemma {:induction false} GroupOfPanicsExactly(t: Template, rest: seq<byte>, offset: nat)
    requires ValidKinds(QUOTE_KINDS)
    ensures ReadGroupOf(t, rest, offset).Panic? <==> GroupOfPanics(t, rest, offset)
  {
    hide ReadGroup, FromLittleEndian, GroupPanics, ValidKinds;
    if |rest| >= GROUP_HEADER_SIZE {
      GroupPanicsExactly(FromLittleEndian(rest[2..4]), rest[4..], offset + 4);
    }
  }

  /** A request to create an RFQ that ends behind its id, 24 bytes in all. */
  lemma {:induction false} ShortRequestPanics(id: seq<byte>)
    requires |id| == 16
    ensures |HeaderBytes(CreateRfqRequestId) + id| == 24
    ensures ReadMessage(CreateRfqRequestId, HeaderBytes(CreateRfqRequestId) + id) == Panic
  {
    hide *;
    var t, b := CreateRfqRequestId, HeaderBytes(CreateRfqRequestId) + id;
    HeaderReadBack(t, id);
    assert b[8..] == id by { HeaderLength(); }
    HeaderLength();
    MessagePanics(t, b);
    IdThenNothing(id);
  }

  lemma {:induction false} HeaderLength()
    ensures |HeaderBytes(CreateRfqRequestId)| == HEADER_SIZE == 8
  {
  }

  lemma {:induction false} IdThenNothing(id: seq<byte>)
    requires |id| == 16
    ensures ValidKinds(FixedKinds(CreateRfqRequestId))
    ensures ReadFields(FixedKinds(CreateRfqRequestId), id, 8) == Panic
  {
    LayoutsValid(CreateRfqRequestId);
    UuidReadBack(Uuid(id), []);
    assert id + [] == id && id[16..] == [];
    var kinds := FixedKinds(CreateRfqRequestId);
    hide FromLittleEndian, LittleEndian;
    assert ReadField(kinds[0], id, 8) == Ok((Uuid(id), 16));
    assert kinds[1..][0] == SIDE && ReadField(SIDE, [], 24) == Panic;
    assert ReadFields(kinds[1..], [], 24) == Panic;
  }

  // ---------------------------------------------------------------------
  // What a failed read reports
  // ---------------------------------------------------------------------

  /** A report of missing bytes asks for more than there are. */
  predicate Honest(e: SbeError, length: nat) {
    e.BufferTooSmall? ==> e.needed > e.available && e.available <= length
  }

  lemma {:induction false} FieldHonest(kind: Kind, rest: seq<byte>, offset: nat)
    requires ValidKind(kind) && ReadField(kind, rest, offset).Err?
    ensures Honest(ReadField(kind, rest, offset).error, offset + |rest|)
  {
    hide FromLittleEndian, ValidUtf8, LittleEndian, Pow256;
  }

  /** What makes a decoder refuse a field that is all there: a code that names
      nothing, a text that is not UTF-8. Any byte but zero reads as true. */
  lemma {:induction false} FieldRefusals(kind: Kind, rest: seq<byte>, offset: nat)
    requires ValidKind(kind)
    ensures var r := ReadField(kind, rest, offset);
            match kind
            case CodeKind(variants) => rest != [] && rest[0] >= variants ==> r == Err(InvalidEnumValue(rest[0]))
            case FlagKind => rest != [] ==> r == Ok((Flag(rest[0] > 0), 1))
            case TextKind => |rest| >= 4 && |rest| >= 4 + Four(rest, 0) ==>
                r == if ValidUtf8(rest[4..4 + Four(rest, 0)]) then Ok((Text(rest[4..4 + Four(rest, 0)]), 4 + Four(rest, 0)))
                     else Err(InvalidString)
            case _ => true
  {
    if |rest| >= 4 {
      FourOctets(rest[..4]);
    }
    hide FromLittleEndian, LittleEndian, ValidUtf8, Pow256, ReadDecimal;
  }

  /** And a negative amount, or a time before the epoch that is not a whole
      second; eight bytes with the top bit set are negative. */
  lemma {:induction false} NegativeRefusals(kind: Kind, rest: seq<byte>, offset: nat)
    requires ValidKind(kind) && |rest| >= 9 && Eight(rest, 0) >= 0x8000_0000_0000_0000 && rest[8] == 0
    ensures var r, n := ReadField(kind, rest, offset), Eight(rest, 0) - 0x1_0000_0000_0000_0000;
            && (kind.AmountKind? ==> r == Err(InvalidFieldValue))
            && (kind.DecimalKind? ==> r == Ok((Decimal(n, 0), 9)))
            && (kind.TimeKind? ==> r == if n % 1_000_000_000 == 0 then Ok((Time(n), 8)) else Err(InvalidTimestamp))
  {
    PowValues();
    EightOctets(rest[..8]);
    assert Eight(rest[..8], 0) == Eight(rest, 0);
    DecimalOctets(rest);
    hide FromLittleEndian, LittleEndian, ValidUtf8, Pow256, ReadDecimal;
  }

  /** A field that is cut off: ids, decimals and texts report against what is left
      of the buffer, the other numbers against all of it. */
  lemma {:induction false} CutFields(kind: Kind, rest: seq<byte>, offset: nat)
    requires ValidKind(kind)
    ensures var r := ReadField(kind, rest, offset);
            match kind
            case UuidKind => |rest| < 16 ==> r == Err(BufferTooSmall(16, |rest|))
            case AmountKind => |rest| < 9 ==> r == Err(BufferTooSmall(9, |rest|))
            case DecimalKind => |rest| < 9 ==> r == Err(BufferTooSmall(9, |rest|))
            case IntKind(width) => |rest| < width ==> r == Err(BufferTooSmall(offset + width, offset + |rest|))
            case TimeKind => |rest| < 8 ==> r == Err(BufferTooSmall(offset + 8, offset + |rest|))
            case TextKind =>
              && (|rest| < 4 ==> r == Err(BufferTooSmall(4, |rest|)))
              && (4 <= |rest| < 4 + Four(rest, 0) ==> r == Err(BufferTooSmall(4 + Four(rest, 0), |rest|)))
            case _ => true
  {
    if |rest| >= 4 {
      FourOctets(rest[..4]);
    }
    hide FromLittleEndian, LittleEndian, ValidUtf8, Pow256;
  }

  /** The group header states the size of an entry's block, which must be 60. */
  lemma {:induction false} GroupRefusals(t: Template, rest: seq<byte>, offset: nat)
    requires t.IsRfqResponse()
    ensures |rest| < 4 ==> ReadGroupOf(t, rest, offset) == Err(BufferTooSmall(offset + 4, offset + |rest|))
    ensures |rest| >= 4 && Two(rest, 0) != 60 ==> ReadGroupOf(t, rest, offset) == Err(InvalidHeader)
    ensures |rest| >= 4 && Two(rest, 0) == 60 && ReadGroupOf(t, rest, offset).Ok? ==>
              |ReadGroupOf(t, rest, offset).value.0| == Two(rest, 2)
  {
    if |rest| >= 4 {
      TwoOctets(rest[..2]);
      TwoOctets(rest[2..4]);
      hide FromLittleEndian, ReadGroup;
      GroupLength(FromLittleEndian(rest[2..4]), rest[4..], offset + 4);
    }
  }

  lemma {:induction false} GroupLength(count: nat, rest: seq<byte>, offset: nat)
    ensures ReadGroup(count, rest, offset).Ok? ==> |ReadGroup(count, rest, offset).value.0| == count
  {
    hide *;
    GroupUnfolds(count, rest, offset);
    if count > 0 && ReadGroup(count, rest, offset).Ok? {
      var n := ReadFields(QUOTE_KINDS, rest, offset).value.1;
      GroupLength(count - 1, rest[n..], offset + n);
    }
  }

  lemma {:induction false} FieldsHonest(kinds: seq<Kind>, rest: seq<byte>, offset: nat)
    requires ValidKinds(kinds) && ReadFields(kinds, rest, offset).Err?
    ensures Honest(ReadFields(kinds, rest, offset).error, offset + |rest|)
  {
    hide ReadField, Honest;
    if kinds != [] {
      var first := ReadField(kinds[0], rest, offset);
      if first.Err? {
        FieldHonest(kinds[0], rest, offset);
      } else {
        FieldsHonest(kinds[1..], rest[first.value.1..], offset + first.value.1);
      }
    }
  }

  lemma {:induction false} GroupHonest(count: nat, rest: seq<byte>, offset: nat)
    requires ValidKinds(QUOTE_KINDS) && ReadGroup(count, rest, offset).Err?
    ensures Honest(ReadGroup(count, rest, offset).error, offset + |rest|)
    decreases count
  {
    hide ReadFields, Honest;
    if count > 0 {
      var first := ReadFields(QUOTE_KINDS, rest, offset);
      if first.Err? {
        FieldsHonest(QUOTE_KINDS, rest, offset);
      } else {
        GroupHonest(count - 1, rest[first.value.1..], offset + first.value.1);
      }
    }
  }

  lemma {:induction false} GroupOfHonest(t: Template, rest: seq<byte>, offset: nat)
    requires ValidKinds(QUOTE_KINDS) && ReadGroupOf(t, rest, offset).Err?
    ensures Honest(ReadGroupOf(t, rest, offset).error, offset + |rest|)
  {
    hide ReadGroup, FromLittleEndian;
    if t.IsRfqResponse() && |rest| >= 4 && FromLittleEndian(rest[..2]) == QUOTE_BLOCK_LENGTH {
      GroupHonest(FromLittleEndian(rest[2..4]), rest[4..], offset + 4);
    }
  }

  /** What a decoder reports: the header's size if not even that is there, the id
      it found if it is another one, and never missing bytes that are not. */
  lemma {:induction false} ReportsHonestly(t: Template, b: seq<byte>)
    ensures |b| < 8 ==> ReadMessage(t, b) == Err(BufferTooSmall(8, |b|))
    ensures |b| >= 8 && Two(b, 2) != t.Id() ==> ReadMessage(t, b) == Err(UnknownTemplateId(Two(b, 2)))
    ensures ReadMessage(t, b).Err? ==> Honest(ReadMessage(t, b).error, |b|)
  {
    LayoutsValid(t);
    hide ReadFields, ReadGroupOf, FromLittleEndian, FixedKinds, TailKinds, ValidKinds;
    if |b| >= 8 {
      TwoOctets(b[2..4]);
      var fixed := ReadFields(FixedKinds(t), b[8..], 8);
      if fixed.Err? {
        FieldsHonest(FixedKinds(t), b[8..], 8);
      } else if fixed.Ok? {
        var at := 8 + fixed.value.1;
        var group := ReadGroupOf(t, b[at..], at);
        if group.Err? {
          GroupOfHonest(t, b[at..], at);
        } else if group.Ok? {
          var end := at + group.value.1;
          if ReadFields(TailKinds(t), b[end..], end).Err? {
            FieldsHonest(TailKinds(t), b[end..], end);
          }
        }
      }
    }
  }
}
