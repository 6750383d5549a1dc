/** Which prefixes of an encoding decode, and which messages share their bytes.
    Decimals may be of any width here: the encoders cut them to 64 bits. */
module SbePrefixes {
  import opened Bytes
  import opened SbeFields
  import opened SbeLayout
  import opened SbeProperties

  /** The length prefix holds the length of every text. */
  predicate Short(v: Value) {
    v.Text? ==> |v.utf8| < Pow256(4)
  }

  predicate ShortAll(vs: seq<Value>) {
    forall i :: 0 <= i < |vs| ==> Short(vs[i])
  }

  predicate ShortGroup(group: seq<seq<Value>>) {
    forall i :: 0 <= i < |group| ==> ShortAll(group[i])
  }

  predicate ShortParts(p: Parts) {
    ShortAll(p.fixed) && |p.group| <= MAX_GROUP && ShortGroup(p.group) && ShortAll(p.tail)
  }

  // ---------------------------------------------------------------------
  // Reading an encoding uses up all of it, if it succeeds
  // ---------------------------------------------------------------------

  lemma {:induction false} FieldUses(kind: Kind, v: Value, post: seq<byte>, offset: nat)
    requires ValidKind(kind) && WellTyped(kind, v) && Short(v)
    ensures var r := ReadField(kind, FieldBytes(kind, v) + post, offset);
            r.Ok? ==> r.value.1 == |FieldBytes(kind, v)|
  {
    FieldBytesSize(kind, v);
    if kind.TextKind? {
      TextReadBack(v, post, offset);
    }
    hide FieldBytes, ValidUtf8, LittleEndian, FromLittleEndian, Pow256;
  }

  lemma {:induction false} FieldsUse(kinds: seq<Kind>, vs: seq<Value>, post: seq<byte>, offset: nat)
    requires ValidKinds(kinds) && WellTypedAll(kinds, vs) && ShortAll(vs)
    ensures var r := ReadFields(kinds, FieldsBytes(kinds, vs) + post, offset);
            r.Ok? ==> r.value.1 == |FieldsBytes(kinds, vs)|
  {
    hide ReadField, ReadFields, FieldBytes, Short, WellTyped, ValidKind;
    FieldsUnfold(kinds, FieldsBytes(kinds, vs) + post, offset);
    if kinds != [] {
      var first, others := FieldBytes(kinds[0], vs[0]), FieldsBytes(kinds[1..], vs[1..]);
      FieldUses(kinds[0], vs[0], others + post, offset);
      assert FieldsBytes(kinds, vs) + post == first + (others + post);
      assert (first + (others + post))[|first|..] == others + post;
      FieldsUse(kinds[1..], vs[1..], post, offset + |first|);
    }
  }

  lemma {:induction false} GroupUses(group: seq<seq<Value>>, post: seq<byte>, offset: nat)
    requires WellTypedGroup(group) && ShortGroup(group)
    ensures var r := ReadGroup(|group|, GroupBytes(group) + post, offset);
            r.Ok? ==> r.value.1 == |GroupBytes(group)|
  {
    hide ReadFields, FieldsBytes, ShortAll, WellTypedAll, ReadGroup;
    GroupUnfolds(|group|, GroupBytes(group) + post, offset);
    if group != [] {
      var first, others := FieldsBytes(QUOTE_KINDS, group[0]), GroupBytes(group[1..]);
      FieldsUse(QUOTE_KINDS, group[0], others + post, offset);
      assert GroupBytes(group) + post == first + (others + post);
      assert (first + (others + post))[|first|..] == others + post;
      GroupUses(group[1..], post, offset + |first|);
    }
  }

  lemma {:induction false} GroupOfUses(t: Template, p: Parts, post: seq<byte>, offset: nat)
    requires WellTypedParts(t, p) && ShortParts(p)
    ensures var bytes := GroupHeaderBytes(t, |p.group|) + GroupBytes(p.group);
            var r := ReadGroupOf(t, bytes + post, offset);
            r.Ok? ==> r.value.1 == |bytes|
  {
    hide ReadGroup, LittleEndian, FromLittleEndian, Pow256, WellTypedAll, ShortAll;
    if t.IsRfqResponse() {
      var size, count := LittleEndian(QUOTE_BLOCK_LENGTH, 2), LittleEndian(|p.group|, 2);
      var entries := GroupBytes(p.group);
      PowValues();
      LittleEndianRoundTrip(|p.group|, 2);
      GroupUses(p.group, post, offset + 4);
      hide GroupBytes;
      var all := size + count + entries + post;
      assert all[2..4] == count && all[4..] == entries + post;
    }
  }

  lemma {:induction false} MessageUses(t: Template, p: Parts, post: seq<byte>)
    requires WellTypedParts(t, p) && ShortParts(p)
    ensures var r := ReadMessage(t, MessageBytes(t, p) + post);
            r.Ok? ==> r.value.1 == |MessageBytes(t, p)|
  {
    hide *;
    ShortShape(t, p);
    var fixed, tail := FieldsBytes(FixedKinds(t), p.fixed), FieldsBytes(TailKinds(t), p.tail);
    var head, group := HeaderBytes(t), GroupHeaderBytes(t, |p.group|) + GroupBytes(p.group);
    Slices(head, fixed, group, tail, post);
    FieldsUse(FixedKinds(t), p.fixed, group + (tail + post), 8);
    GroupOfUses(t, p, tail + post, 8 + |fixed|);
    FieldsUse(TailKinds(t), p.tail, post, 8 + |fixed| + |group|);
    ReadUses(t, MessageBytes(t, p) + post);
  }

  lemma {:induction false} ShortShape(t: Template, p: Parts)
    requires WellTypedParts(t, p) && ShortParts(p)
    ensures ShortAll(p.fixed) && ShortAll(p.tail)
    ensures WellTypedAll(FixedKinds(t), p.fixed) && WellTypedAll(TailKinds(t), p.tail)
    ensures WellTypedGroup(p.group)
    ensures ValidKinds(FixedKinds(t)) && ValidKinds(TailKinds(t))
    ensures |HeaderBytes(t)| == HEADER_SIZE == 8
    ensures MessageBytes(t, p) == HeaderBytes(t) + (FieldsBytes(FixedKinds(t), p.fixed)
              + ((GroupHeaderBytes(t, |p.group|) + GroupBytes(p.group)) + FieldsBytes(TailKinds(t), p.tail)))
  {
    LayoutsValid(t);
    hide FixedKinds, TailKinds, HeaderBytes, GroupHeaderBytes;
    Regroup(FieldsBytes(FixedKinds(t), p.fixed), GroupHeaderBytes(t, |p.group|), GroupBytes(p.group), FieldsBytes(TailKinds(t), p.tail));
  }

  /** The pieces of a message that reads, and what each of them uses up. */
  lemma {:induction false} ReadUses(t: Template, b: seq<byte>)
    ensures ValidKinds(FixedKinds(t)) && ValidKinds(TailKinds(t))
    ensures ReadMessage(t, b).Ok? ==>
              && |b| >= 8
              && var fixed := ReadFields(FixedKinds(t), b[8..], 8);
              && fixed.Ok?
              && var n := fixed.value.1;
              && var group := ReadGroupOf(t, b[8 + n..], 8 + n);
              && group.Ok?
              && var m := group.value.1;
              && var tail := ReadFields(TailKinds(t), b[8 + n + m..], 8 + n + m);
              && tail.Ok? && ReadMessage(t, b).value.1 == 8 + n + m + tail.value.1
  {
    LayoutsValid(t);
    hide FixedKinds, TailKinds, ReadFields, ReadGroupOf, FromLittleEndian;
  }

  /** No strict prefix of an encoding decodes, if every text is shorter than
      4 GiB. */
  lemma {:induction false} NoPrefixDecodes(t: Template, p: Parts, n: nat)
    requires WellTypedParts(t, p) && ShortParts(p)
    ensures n < |MessageBytes(t, p)| ==> !ReadMessage(t, MessageBytes(t, p)[..n]).Ok?
  {
    hide ReadMessage, MessageBytes, WellTypedParts;
    MessageUses(t, p, []);
    var b := MessageBytes(t, p);
    assert b + [] == b;
    if n < |b| {
      assert b[..n] + b[n..] == b;
      if ReadMessage(t, b[..n]).Ok? {
        MessageIgnoresTail(t, b[..n], b[n..]);
      }
    }
  }

  // ---------------------------------------------------------------------
  // When a prefix does decode
  // ---------------------------------------------------------------------

  /** A read that succeeds needs only the bytes it uses up. */
  lemma {:induction false} FieldLocal(kind: Kind, rest: seq<byte>, m: nat, offset: nat)
    requires ValidKind(kind) && ReadField(kind, rest, offset).Ok?
    requires ReadField(kind, rest, offset).value.1 <= m <= |rest|
    ensures ReadField(kind, rest[..m], offset) == ReadField(kind, rest, offset)
  {
    hide LittleEndian, FromLittleEndian, Pow256, ValidUtf8;
    assert forall i, j :: 0 <= i <= j <= m ==> rest[..m][i..j] == rest[i..j];
    if m >= 8 { assert rest[..m][..8] == rest[..8]; }
    if m >= 4 { assert rest[..m][..4] == rest[..4]; }
  }

  lemma {:induction false} FieldsLocal(kinds: seq<Kind>, rest: seq<byte>, m: nat, offset: nat)
    requires ValidKinds(kinds) && ReadFields(kinds, rest, offset).Ok?
    requires ReadFields(kinds, rest, offset).value.1 <= m <= |rest|
    ensures ReadFields(kinds, rest[..m], offset) == ReadFields(kinds, rest, offset)
  {
    hide *;
    FieldsUnfold(kinds, rest, offset);
    FieldsUnfold(kinds, rest[..m], offset);
    if kinds != [] {
      var n := ReadField(kinds[0], rest, offset).value.1;
      FieldLocal(kinds[0], rest, m, offset);
      assert rest[..m][n..] == rest[n..][..m - n];
      FieldsLocal(kinds[1..], rest[n..], m - n, offset + n);
    }
  }

  lemma {:induction false} GroupLocal(count: nat, rest: seq<byte>, m: nat, offset: nat)
    requires ReadGroup(count, rest, offset).Ok? && ReadGroup(count, rest, offset).value.1 <= m <= |rest|
    ensures ReadGroup(count, rest[..m], offset) == ReadGroup(count, rest, offset)
  {
    hide *;
    GroupUnfolds(count, rest, offset);
    GroupUnfolds(count, rest[..m], offset);
    if count > 0 {
      var n := ReadFields(QUOTE_KINDS, rest, offset).value.1;
      FieldsLocal(QUOTE_KINDS, rest, m, offset);
      assert rest[..m][n..] == rest[n..][..m - n];
      GroupLocal(count - 1, rest[n..], m - n, offset + n);
    }
  }

  lemma {:induction false} GroupOfLocal(t: Template, rest: seq<byte>, m: nat, offset: nat)
    requires ReadGroupOf(t, rest, offset).Ok? && ReadGroupOf(t, rest, offset).value.1 <= m <= |rest|
    ensures ReadGroupOf(t, rest[..m], offset) == ReadGroupOf(t, rest, offset)
  {
    hide ReadGroup, FromLittleEndian;
    if t.IsRfqResponse() {
      var cut := rest[..m];
      assert cut[..2] == rest[..2] && cut[2..4] == rest[2..4] && cut[4..] == rest[4..][..m - 4];
      GroupLocal(FromLittleEndian(rest[2..4]), rest[4..], m - 4, offset + 4);
    }
  }

  lemma {:induction false} MessageLocal(t: Template, b: seq<byte>, k: nat)
    requires ReadMessage(t, b).Ok? && ReadMessage(t, b).value.1 <= k <= |b|
    ensures ReadMessage(t, b[..k]) == ReadMessage(t, b)
  {
    LayoutsValid(t);
    hide ReadFields, ReadGroupOf, FromLittleEndian, FixedKinds, TailKinds;
    var cut := b[..k];
    assert cut[2..4] == b[2..4];
    var n := ReadFields(FixedKinds(t), b[8..], 8).value.1;
    assert cut[8..] == b[8..][..k - 8];
    FieldsLocal(FixedKinds(t), b[8..], k - 8, 8);
    var m := ReadGroupOf(t, b[8 + n..], 8 + n).value.1;
    assert cut[8 + n..] == b[8 + n..][..k - 8 - n];
    GroupOfLocal(t, b[8 + n..], k - 8 - n, 8 + n);
    assert cut[8 + n + m..] == b[8 + n + m..][..k - 8 - n - m];
    FieldsLocal(TailKinds(t), b[8 + n + m..], k - 8 - n - m, 8 + n + m);
  }

  /** Of any message, some strict prefix of the encoding decodes exactly when
      the encoding decodes without being used up. */
  lemma {:induction false} PrefixDecodesExactly(t: Template, p: Parts)
    requires WellTypedParts(t, p)
    ensures var b := MessageBytes(t, p);
            (exists n: nat :: n < |b| && ReadMessage(t, b[..n]).Ok?) <==>
            ReadMessage(t, b).Ok? && ReadMessage(t, b).value.1 < |b|
  {
    hide ReadMessage, MessageBytes, WellTypedParts;
    var b := MessageBytes(t, p);
    if n: nat :| n < |b| && ReadMessage(t, b[..n]).Ok? {
      MessageIgnoresTail(t, b[..n], b[n..]);
      assert b[..n] + b[n..] == b;
    }
    if ReadMessage(t, b).Ok? && ReadMessage(t, b).value.1 < |b| {
      MessageLocal(t, b, ReadMessage(t, b).value.1);
    }
  }

  /** A request to cancel, with a reason of n letters. */
  function Cancelling(request: seq<byte>, rfq: seq<byte>, n: nat): Parts {
    Parts([Uuid(request), Uuid(rfq)], [], [Text(seq(n, _ => 97))])
  }

  lemma {:induction false} LettersAreUtf8(n: nat)
    ensures ValidUtf8(seq(n, _ => 97 as byte))
  {
    if n > 0 {
      var letters: seq<byte> := seq(n, _ => 97);
      assert letters[1..] == seq(n - 1, _ => 97 as byte);
      LettersAreUtf8(n - 1);
    }
  }

  lemma {:induction false} CancellingTyped(request: seq<byte>, rfq: seq<byte>, n: nat)
    requires |request| == |rfq| == 16
    ensures WellTypedParts(CancelRfqRequestId, Cancelling(request, rfq, n))
    ensures EncodeError(Cancelling(request, rfq, n)).Ok?
  {
    LettersAreUtf8(n);
    hide ValidUtf8;
  }

  /** From 4 GiB on the length prefix wraps: a reason of exactly 2^32 letters
      encodes, and the first 44 bytes of it decode to a request without one. */
  lemma {:induction false} LongTextPrefixDecodes(request: seq<byte>, rfq: seq<byte>)
    requires |request| == |rfq| == 16
    ensures var long := Cancelling(request, rfq, Pow256(4));
            && WellTypedParts(CancelRfqRequestId, long) && EncodeError(long).Ok?
            && |MessageBytes(CancelRfqRequestId, long)| == 44 + Pow256(4)
            && ReadMessage(CancelRfqRequestId, MessageBytes(CancelRfqRequestId, long)[..44])
               == Ok((Cancelling(request, rfq, 0), 44))
  {
    hide *;
    var t, n := CancelRfqRequestId, Pow256(4);
    CancellingTyped(request, rfq, n);
    CancellingTyped(request, rfq, 0);
    CancellingBytes(request, rfq, n);
    CancellingBytes(request, rfq, 0);
    WrappedLength();
    assert MessageBytes(t, Cancelling(request, rfq, n))[..44] == MessageBytes(t, Cancelling(request, rfq, 0));
    CancellingCarried(request, rfq);
    MessageRoundTrip(t, Cancelling(request, rfq, 0), []);
    assert MessageBytes(t, Cancelling(request, rfq, 0)) + [] == MessageBytes(t, Cancelling(request, rfq, 0));
  }

  lemma {:induction false} WrappedLength()
    ensures Pow256(4) % Pow256(4) == 0 % Pow256(4) == 0
  {
  }

  lemma {:induction false} CancellingCarried(request: seq<byte>, rfq: seq<byte>)
    ensures CarriedParts(Cancelling(request, rfq, 0))
  {
    PowValues();
  }

  lemma {:induction false} CancellingBytes(request: seq<byte>, rfq: seq<byte>, n: nat)
    requires WellTypedParts(CancelRfqRequestId, Cancelling(request, rfq, n))
    ensures ValidKinds([UuidKind, UuidKind]) && WellTypedAll([UuidKind, UuidKind], [Uuid(request), Uuid(rfq)])
    ensures var front := HeaderBytes(CancelRfqRequestId) + FieldsBytes([UuidKind, UuidKind], [Uuid(request), Uuid(rfq)]);
            && |front| == 40
            && MessageBytes(CancelRfqRequestId, Cancelling(request, rfq, n)) ==
               front + (LittleEndian(n % Pow256(4), 4) + seq(n, _ => 97))
  {
    var t, p := CancelRfqRequestId, Cancelling(request, rfq, n);
    CancellingLayout(request, rfq, n);
    hide *;
    MessageBytesExact(t, p);
    OneText(p.tail[0]);
  }

  /** Two ids and a text, and no group. */
  lemma {:induction false} CancellingLayout(request: seq<byte>, rfq: seq<byte>, n: nat)
    requires WellTypedParts(CancelRfqRequestId, Cancelling(request, rfq, n))
    ensures ValidKinds([UuidKind, UuidKind]) && WellTypedAll([UuidKind, UuidKind], [Uuid(request), Uuid(rfq)])
    ensures var t, p := CancelRfqRequestId, Cancelling(request, rfq, n);
            && FixedKinds(t) == [UuidKind, UuidKind] && TailKinds(t) == [TextKind]
            && p.fixed == [Uuid(request), Uuid(rfq)] && p.tail == [Text(seq(n, _ => 97))]
            && WellTyped(TextKind, p.tail[0]) && ValidKinds([TextKind]) && WellTypedAll([TextKind], p.tail)
            && |HeaderBytes(t)| == 8 && BlockLength(t) == 32
            && MessageBytes(t, p) == HeaderBytes(t) + FieldsBytes([UuidKind, UuidKind], p.fixed) + FieldsBytes([TextKind], p.tail)
  {
    hide FieldsBytes, ValidUtf8, FieldBytes;
    assert GroupHeaderBytes(CancelRfqRequestId, 0) == [] && GroupBytes([]) == [];
  }

  lemma {:induction false} OneText(v: Value)
    requires WellTyped(TextKind, v) && ValidKinds([TextKind]) && WellTypedAll([TextKind], [v])
    ensures FieldsBytes([TextKind], [v]) == LittleEndian(|v.utf8| % Pow256(4), 4) + v.utf8
  {
    hide LittleEndian, Pow256, ValidUtf8;
  }

  // ---------------------------------------------------------------------
  // Which messages share their bytes
  // ---------------------------------------------------------------------

  /** Alike but for what 64 bits cannot tell apart. */
  predicate Alike(v: Value, w: Value) {
    match v
    case Decimal(mantissa, scale) =>
      w.Decimal? && Unsigned(mantissa, 8) == Unsigned(w.mantissa, 8) && scale == w.scale
    case Time(nanos) => w.Time? && Unsigned(nanos, 8) == Unsigned(w.nanos, 8)
    case _ => v == w
  }

  predicate AlikeAll(vs: seq<Value>, ws: seq<Value>) {
    |vs| == |ws| && forall i :: 0 <= i < |vs| ==> Alike(vs[i], ws[i])
  }

  predicate AlikeGroup(g: seq<seq<Value>>, h: seq<seq<Value>>) {
    |g| == |h| && forall i :: 0 <= i < |g| ==> AlikeAll(g[i], h[i])
  }

  predicate AlikeParts(p: Parts, q: Parts) {
    AlikeAll(p.fixed, q.fixed) && AlikeGroup(p.group, q.group) && AlikeAll(p.tail, q.tail)
  }

  lemma {:induction false} LittleEndianInjective(m: nat, n: nat, width: nat)
    requires m < Pow256(width) && n < Pow256(width)
    ensures LittleEndian(m, width) == LittleEndian(n, width) <==> m == n
  {
    LittleEndianRoundTrip(m, width);
    LittleEndianRoundTrip(n, width);
  }

  lemma {:induction false} SplitAt(a: seq<byte>, b: seq<byte>, c: seq<byte>, d: seq<byte>)
    requires |a| == |c|
    ensures a + b == c + d <==> a == c && b == d
  {
    assert (a + b)[..|a|] == a && (a + b)[|a|..] == b;
    assert (c + d)[..|c|] == c && (c + d)[|c|..] == d;
  }

  /** Two fields of a kind begin two texts alike only if they are alike. */
  lemma {:induction false} FieldSplits(kind: Kind, v: Value, w: Value, post: seq<byte>, rest: seq<byte>)
    requires ValidKind(kind) && WellTyped(kind, v) && WellTyped(kind, w) && Short(v) && Short(w)
    ensures FieldBytes(kind, v) + post == FieldBytes(kind, w) + rest <==> Alike(v, w) && post == rest
  {
    if kind.TextKind? {
      TextSplits(v, w, post, rest);
    } else {
      FieldBytesSize(kind, v);
      FieldBytesSize(kind, w);
      SplitAt(FieldBytes(kind, v), post, FieldBytes(kind, w), rest);
      SameBytes(kind, v, w);
    }
  }

  lemma {:induction false} TextSplits(v: Value, w: Value, post: seq<byte>, rest: seq<byte>)
    requires WellTyped(TextKind, v) && WellTyped(TextKind, w) && Short(v) && Short(w)
    ensures FieldBytes(TextKind, v) + post == FieldBytes(TextKind, w) + rest <==> v == w && post == rest
  {
    hide LittleEndian, Pow256, ValidUtf8;
    var m, n := |v.utf8|, |w.utf8|;
    WrapAround(m, Pow256(4));
    WrapAround(n, Pow256(4));
    LittleEndianInjective(m, n, 4);
    assert FieldBytes(TextKind, v) + post == LittleEndian(m, 4) + (v.utf8 + post);
    assert FieldBytes(TextKind, w) + rest == LittleEndian(n, 4) + (w.utf8 + rest);
    SplitAt(LittleEndian(m, 4), v.utf8 + post, LittleEndian(n, 4), w.utf8 + rest);
    if m == n {
      SplitAt(v.utf8, post, w.utf8, rest);
    }
  }

  lemma {:induction false} SameBytes(kind: Kind, v: Value, w: Value)
    requires ValidKind(kind) && !kind.TextKind? && WellTyped(kind, v) && WellTyped(kind, w)
    ensures FieldBytes(kind, v) == FieldBytes(kind, w) <==> Alike(v, w)
  {
    match kind
    case UuidKind =>
      UuidReadBack(v, []);
      UuidReadBack(w, []);
    case CodeKind(_) =>
    case FlagKind =>
    case AmountKind => SameDecimal(v, w);
    case DecimalKind => SameDecimal(v, w);
    case IntKind(width) =>
      LittleEndianInjective(Unsigned(v.i, width), Unsigned(w.i, width), width);
      SignedRoundTrip(v.i, width);
      SignedRoundTrip(w.i, width);
    case TimeKind => LittleEndianInjective(Unsigned(v.nanos, 8), Unsigned(w.nanos, 8), 8);
  }

  lemma {:induction false} SameDecimal(v: Value, w: Value)
    requires v.Decimal? && w.Decimal? && v.scale <= MAX_SCALE && w.scale <= MAX_SCALE
    ensures (LittleEndian(Unsigned(v.mantissa, 8), 8) + LittleEndian(Unsigned(-(v.scale as int), 1), 1)
             == LittleEndian(Unsigned(w.mantissa, 8), 8) + LittleEndian(Unsigned(-(w.scale as int), 1), 1))
            <==> Alike(v, w)
  {
    ScaleByte(v.scale);
    ScaleByte(w.scale);
    LittleEndianInjective(Unsigned(v.mantissa, 8), Unsigned(w.mantissa, 8), 8);
    hide LittleEndian, Unsigned, Signed, Pow256;
    SplitAt(LittleEndian(Unsigned(v.mantissa, 8), 8), LittleEndian(Unsigned(-(v.scale as int), 1), 1),
            LittleEndian(Unsigned(w.mantissa, 8), 8), LittleEndian(Unsigned(-(w.scale as int), 1), 1));
  }

  lemma {:induction false} FieldsSplit(kinds: seq<Kind>, vs: seq<Value>, ws: seq<Value>, post: seq<byte>, rest: seq<byte>)
    requires ValidKinds(kinds) && WellTypedAll(kinds, vs) && WellTypedAll(kinds, ws) && ShortAll(vs) && ShortAll(ws)
    ensures FieldsBytes(kinds, vs) + post == FieldsBytes(kinds, ws) + rest <==> AlikeAll(vs, ws) && post == rest
  {
    hide FieldBytes, Short, WellTyped, ValidKind, Alike;
    if kinds == [] {
      assert [] + post == post && [] + rest == rest;
    } else {
      var a, b := FieldsBytes(kinds[1..], vs[1..]), FieldsBytes(kinds[1..], ws[1..]);
      assert FieldsBytes(kinds, vs) + post == FieldBytes(kinds[0], vs[0]) + (a + post);
      assert FieldsBytes(kinds, ws) + rest == FieldBytes(kinds[0], ws[0]) + (b + rest);
      FieldSplits(kinds[0], vs[0], ws[0], a + post, b + rest);
      FieldsSplit(kinds[1..], vs[1..], ws[1..], post, rest);
      assert AlikeAll(vs, ws) <==> Alike(vs[0], ws[0]) && AlikeAll(vs[1..], ws[1..]) by {
        assert forall i :: 0 < i < |vs| ==> vs[1..][i - 1] == vs[i] && ws[1..][i - 1] == ws[i];
      }
    }
  }

  lemma {:induction false} GroupSplits(g: seq<seq<Value>>, h: seq<seq<Value>>, post: seq<byte>, rest: seq<byte>)
    requires WellTypedGroup(g) && WellTypedGroup(h) && ShortGroup(g) && ShortGroup(h) && |g| == |h|
    ensures GroupBytes(g) + post == GroupBytes(h) + rest <==> AlikeGroup(g, h) && post == rest
  {
    hide FieldsBytes, ShortAll, WellTypedAll, AlikeAll;
    if g == [] {
      assert [] + post == post && [] + rest == rest;
    } else {
      var a, b := GroupBytes(g[1..]), GroupBytes(h[1..]);
      assert ValidKinds(QUOTE_KINDS);
      assert GroupBytes(g) + post == FieldsBytes(QUOTE_KINDS, g[0]) + (a + post);
      assert GroupBytes(h) + rest == FieldsBytes(QUOTE_KINDS, h[0]) + (b + rest);
      FieldsSplit(QUOTE_KINDS, g[0], h[0], a + post, b + rest);
      GroupSplits(g[1..], h[1..], post, rest);
      assert AlikeGroup(g, h) <==> AlikeAll(g[0], h[0]) && AlikeGroup(g[1..], h[1..]) by {
        assert forall i :: 0 < i < |g| ==> g[1..][i - 1] == g[i] && h[1..][i - 1] == h[i];
      }
    }
  }

  lemma {:induction false} GroupOfSplits(t: Template, p: Parts, q: Parts, post: seq<byte>, rest: seq<byte>)
    requires WellTypedParts(t, p) && ShortParts(p) && WellTypedParts(t, q) && ShortParts(q)
    ensures (GroupHeaderBytes(t, |p.group|) + GroupBytes(p.group)) + post == (GroupHeaderBytes(t, |q.group|) + GroupBytes(q.group)) + rest
            <==> AlikeGroup(p.group, q.group) && post == rest
  {
    hide LittleEndian, Pow256, WellTypedAll, ShortAll, GroupBytes, AlikeAll;
    var a, b := GroupBytes(p.group) + post, GroupBytes(q.group) + rest;
    assert (GroupHeaderBytes(t, |p.group|) + GroupBytes(p.group)) + post == GroupHeaderBytes(t, |p.group|) + a;
    assert (GroupHeaderBytes(t, |q.group|) + GroupBytes(q.group)) + rest == GroupHeaderBytes(t, |q.group|) + b;
    SplitAt(GroupHeaderBytes(t, |p.group|), a, GroupHeaderBytes(t, |q.group|), b);
    if t.IsRfqResponse() {
      PowValues();
      LittleEndianInjective(|p.group|, |q.group|, 2);
      SplitAt(LittleEndian(QUOTE_BLOCK_LENGTH, 2), LittleEndian(|p.group|, 2), LittleEndian(QUOTE_BLOCK_LENGTH, 2), LittleEndian(|q.group|, 2));
    }
    if |p.group| == |q.group| {
      GroupSplits(p.group, q.group, post, rest);
    }
  }

  /** One message's encoding begins another's of the same type exactly when the
      two are alike, and then they are encoded alike: apart from decimals that 64
      bits cannot tell apart, no message is the beginning of another. */
  lemma {:induction false} SharedBytesExactly(t: Template, p: Parts, q: Parts)
    requires WellTypedParts(t, p) && ShortParts(p) && WellTypedParts(t, q) && ShortParts(q)
    ensures MessageBytes(t, p) <= MessageBytes(t, q) <==> AlikeParts(p, q)
    ensures MessageBytes(t, p) == MessageBytes(t, q) <==> AlikeParts(p, q)
  {
    hide *;
    var b, c := MessageBytes(t, p), MessageBytes(t, q);
    MessageSplits(t, p, q, []);
    assert b + [] == b;
    if b <= c {
      MessageSplits(t, p, q, c[|b|..]);
      assert b + c[|b|..] == c;
    }
  }

  lemma {:induction false} MessageSplits(t: Template, p: Parts, q: Parts, post: seq<byte>)
    requires WellTypedParts(t, p) && ShortParts(p) && WellTypedParts(t, q) && ShortParts(q)
    ensures MessageBytes(t, p) + post == MessageBytes(t, q) <==> AlikeParts(p, q) && post == []
  {
    hide *;
    ShortShape(t, p);
    ShortShape(t, q);
    var head := HeaderBytes(t);
    var f, g, x := FieldsBytes(FixedKinds(t), p.fixed), GroupHeaderBytes(t, |p.group|) + GroupBytes(p.group), FieldsBytes(TailKinds(t), p.tail);
    var k, l, y := FieldsBytes(FixedKinds(t), q.fixed), GroupHeaderBytes(t, |q.group|) + GroupBytes(q.group), FieldsBytes(TailKinds(t), q.tail);
    Slices(head, f, g, x, post);
    assert y + [] == y;
    SplitAt(head, f + (g + (x + post)), head, k + (l + (y + [])));
    FieldsSplit(FixedKinds(t), p.fixed, q.fixed, g + (x + post), l + (y + []));
    GroupOfSplits(t, p, q, x + post, y + []);
    FieldsSplit(TailKinds(t), p.tail, q.tail, post, []);
    AlikePieces(p, q);
  }

  lemma {:induction false} AlikePieces(p: Parts, q: Parts)
    ensures AlikeParts(p, q) <==> AlikeAll(p.fixed, q.fixed) && AlikeGroup(p.group, q.group) && AlikeAll(p.tail, q.tail)
  {
  }

  /** So messages that the wire can carry never share their bytes. */
  lemma {:induction false} UniquelyDecodable(t: Template, p: Parts, other: Parts)
    requires WellTypedParts(t, p) && CarriedParts(p)
    requires WellTypedParts(t, other) && CarriedParts(other)
    ensures MessageBytes(t, p) <= MessageBytes(t, other) ==> p == other
  {
    hide ReadMessage, MessageBytes, WellTypedParts;
    MessageRoundTrip(t, p, []);
    MessageRoundTrip(t, other, []);
    var b, c := MessageBytes(t, p), MessageBytes(t, other);
    if b <= c {
      MessageRoundTrip(t, p, c[|b|..]);
      assert b + c[|b|..] == c && c + [] == c;
    }
  }
}
