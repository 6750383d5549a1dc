/** The field primitives of the SBE messages: how one field is written, and how
    one is read at an offset. A read either succeeds, reports an error, or
    panics, where the code indexes or builds a decimal without a check. */
module SbeFields {
  import opened Bytes

  datatype SbeError =
    | BufferTooSmall(needed: nat, available: nat)
    | UnknownTemplateId(id: nat)
    | InvalidHeader
    | InvalidFieldValue
    | InvalidString
    | InvalidEnumValue(value: nat)
    | InvalidDecimal
    | InvalidTimestamp

  datatype Outcome<+T> = Ok(value: T) | Err(error: SbeError) | Panic {
    predicate IsFailure() { !Ok? }
    function PropagateFailure<U>(): Outcome<U>
      requires IsFailure()
    {
      if Err? then Outcome<U>.Err(error) else Outcome<U>.Panic
    }
    function Extract(): T
      requires !IsFailure()
    {
      value
    }
  }

  datatype Kind =
    | UuidKind
    | CodeKind(variants: nat)    // an enum of that many variants, one byte
    | FlagKind
    | AmountKind                 // a price or quantity: a non-negative decimal
    | DecimalKind
    | IntKind(width: nat)        // a signed integer of 4 or 8 bytes
    | TimeKind                   // nanoseconds since the epoch
    | TextKind

  datatype Value =
    | Uuid(octets: seq<byte>)
    | Code(code: nat)
    | Flag(on: bool)
    | Decimal(mantissa: int, scale: nat)
    | Int(i: int)
    | Time(nanos: int)
    | Text(utf8: seq<byte>)

  const MAX_SCALE: nat := 28
  const NANOS_PER_SECOND: nat := 1_000_000_000

  predicate ValidKind(kind: Kind) {
    (kind.CodeKind? ==> kind.variants <= 256) && (kind.IntKind? ==> kind.width == 4 || kind.width == 8)
  }

  predicate Continuation(b: byte) {
    0x80 <= b < 0xC0
  }

  /** Length of the well-formed UTF-8 sequence at the front of b, or 0. */
  function SequenceLength(b: seq<byte>): (n: nat)
    ensures n <= |b|
  {
    if b == [] then 0
    else if b[0] < 0x80 then 1
    else if |b| < 2 || !Continuation(b[1]) then 0
    else if 0xC2 <= b[0] < 0xE0 then 2
    else if |b| < 3 || !Continuation(b[2]) then 0
    else if (b[0] == 0xE0 && b[1] >= 0xA0) || 0xE1 <= b[0] <= 0xEC || (b[0] == 0xED && b[1] < 0xA0) || 0xEE <= b[0] <= 0xEF then 3
    else if |b| < 4 || !Continuation(b[3]) then 0
    else if (b[0] == 0xF0 && b[1] >= 0x90) || 0xF1 <= b[0] <= 0xF3 || (b[0] == 0xF4 && b[1] < 0x90) then 4
    else 0
  }

  predicate ValidUtf8(b: seq<byte>) {
    b == [] || (SequenceLength(b) > 0 && ValidUtf8(b[SequenceLength(b)..]))
  }

  /** The value is one that the field's type can hold in memory. */
  predicate WellTyped(kind: Kind, v: Value) {
    match kind
    case UuidKind => v.Uuid? && |v.octets| == 16
    case CodeKind(variants) => v.Code? && v.code < variants
    case FlagKind => v.Flag?
    case AmountKind => v.Decimal? && 0 <= v.mantissa < MANTISSA_LIMIT && v.scale <= MAX_SCALE
    case DecimalKind => v.Decimal? && -MANTISSA_LIMIT < v.mantissa < MANTISSA_LIMIT && v.scale <= MAX_SCALE
    case IntKind(width) => v.Int? && Fits(v.i, width)
    case TimeKind => v.Time?
    case TextKind => v.Text? && ValidUtf8(v.utf8)
  }

  // A decimal carries a 96-bit mantissa.
  const MANTISSA_LIMIT: int := 0x1_0000_0000_0000_0000_0000_0000

  /** A value that the encoders accept: a timestamp is neither negative nor
      beyond i64. */
  predicate Encodable(v: Value) {
    v.Time? ==> 0 <= v.nanos && Fits(v.nanos, 8)
  }

  /** A value that some bytes decode to: decimals fit 64 bits, texts are shorter
      than 4 GiB, and a timestamp fits i64 and, if negative, is a whole second. */
  predicate Carried(v: Value) {
    && (v.Decimal? ==> Fits(v.mantissa, 8))
    && (v.Text? ==> |v.utf8| < Pow256(4))
    && (v.Time? ==> Fits(v.nanos, 8) && (v.nanos < 0 ==> v.nanos % NANOS_PER_SECOND == 0))
  }

  /** A value that survives encoding and decoding. */
  predicate Representable(v: Value) {
    && (v.Decimal? ==> Fits(v.mantissa, 8))
    && (v.Text? ==> |v.utf8| < Pow256(4))
    && (v.Time? ==> 0 <= v.nanos && Fits(v.nanos, 8))
  }

  // ---------------------------------------------------------------------
  // Writing
  // ---------------------------------------------------------------------

  /** The bytes of a field; casts wrap around as they do in the code. A
      timestamp that the encoders refuse has bytes too: those that a decoder
      takes for it. */
  function FieldBytes(kind: Kind, v: Value): (b: seq<byte>)
    requires ValidKind(kind) && WellTyped(kind, v)
  {
    match kind
    case UuidKind =>
      LittleEndian(FromLittleEndian(v.octets[..8]), 8) + LittleEndian(FromLittleEndian(v.octets[8..]), 8)
    case CodeKind(_) => [v.code]
    case FlagKind => [if v.on then 1 else 0]
    case AmountKind => LittleEndian(Unsigned(v.mantissa, 8), 8) + LittleEndian(Unsigned(-(v.scale as int), 1), 1)
    case DecimalKind => LittleEndian(Unsigned(v.mantissa, 8), 8) + LittleEndian(Unsigned(-(v.scale as int), 1), 1)
    case IntKind(width) => LittleEndian(Unsigned(v.i, width), width)
    case TimeKind => LittleEndian(Unsigned(v.nanos, 8), 8)
    case TextKind => LittleEndian(|v.utf8| % Pow256(4), 4) + v.utf8
  }

  /** The size the code accounts for. */
  function FieldSize(kind: Kind, v: Value): nat {
    match kind
    case UuidKind => 16
    case CodeKind(_) => 1
    case FlagKind => 1
    case AmountKind => 9
    case DecimalKind => 9
    case IntKind(width) => width
    case TimeKind => 8
    case TextKind => if v.Text? then 4 + |v.utf8| else 4
  }

  lemma {:induction false} FieldBytesSize(kind: Kind, v: Value)
    requires ValidKind(kind) && WellTyped(kind, v)
    ensures |FieldBytes(kind, v)| == FieldSize(kind, v)
  {
  }

  // ---------------------------------------------------------------------
  // Reading
  // ---------------------------------------------------------------------

  function Pow10(n: nat): (p: nat)
    ensures p >= 1
  {
    if n == 0 then 1 else 10 * Pow10(n - 1)
  }

  /** `to_decimal`: mantissa and exponent back to a decimal. */
  function ToDecimal(mantissa: int, exponent: int): Outcome<Value> {
    if exponent > 0 then
      if !Fits(Pow10(exponent), 8) || !Fits(mantissa * Pow10(exponent), 8) then Err(InvalidDecimal)
      else Ok(Decimal(mantissa * Pow10(exponent), 0))
    else if exponent < -(MAX_SCALE as int) then Panic
    else Ok(Decimal(mantissa, -exponent))
  }

  /** Reading a timestamp reinterprets the unsigned word as signed; a negative
      one is only accepted on a whole second. */
  function ToTime(word: nat): Outcome<Value> {
    var nanos := Signed(word, 8);
    if nanos < 0 && nanos % NANOS_PER_SECOND != 0 then Err(InvalidTimestamp) else Ok(Time(nanos))
  }

  /** Reads a field at the front of `rest`, the buffer from `offset` on, and
      says how many bytes it took. */
  function ReadField(kind: Kind, rest: seq<byte>, offset: nat): (r: Outcome<(Value, nat)>)
    requires ValidKind(kind)
    ensures r.Ok? ==> r.value.1 <= |rest|
  {
    match kind
    case UuidKind =>
      if |rest| < 16 then Err(BufferTooSmall(16, |rest|))
      else Ok((Uuid(LittleEndian(FromLittleEndian(rest[..8]), 8) + LittleEndian(FromLittleEndian(rest[8..16]), 8)), 16))
    case CodeKind(variants) =>
      if rest == [] then Panic
      else if rest[0] < variants then Ok((Code(rest[0]), 1))
      else Err(InvalidEnumValue(rest[0]))
    case FlagKind => if rest == [] then Panic else Ok((Flag(rest[0] != 0), 1))
    case AmountKind =>
      var d :- ReadDecimal(rest);
      if d.mantissa < 0 then Err(InvalidFieldValue) else Ok((d, 9))
    case DecimalKind =>
      var d :- ReadDecimal(rest);
      Ok((d, 9))
    case IntKind(width) =>
      if |rest| < width then Err(BufferTooSmall(offset + width, offset + |rest|))
      else Ok((Int(Signed(FromLittleEndian(rest[..width]), width)), width))
    case TimeKind =>
      if |rest| < 8 then Err(BufferTooSmall(offset + 8, offset + |rest|))
      else
        var t :- ToTime(FromLittleEndian(rest[..8]));
        Ok((t, 8))
    case TextKind =>
      if |rest| < 4 then Err(BufferTooSmall(4, |rest|))
      else
        var total := 4 + FromLittleEndian(rest[..4]);
        if |rest| < total then Err(BufferTooSmall(total, |rest|))
        else if !ValidUtf8(rest[4..total]) then Err(InvalidString)
        else Ok((Text(rest[4..total]), total))
  }

  function ReadDecimal(rest: seq<byte>): (r: Outcome<Value>)
    ensures r.Ok? ==> r.value.Decimal? && |rest| >= 9
  {
    if |rest| < 9 then Err(BufferTooSmall(9, |rest|))
    else ToDecimal(Signed(FromLittleEndian(rest[..8]), 8), Signed(rest[8], 1))
  }

  // ---------------------------------------------------------------------
  // Reading undoes writing
  // ---------------------------------------------------------------------

  lemma {:induction false} ScaleByte(scale: nat)
    requires scale <= MAX_SCALE
    ensures var b := LittleEndian(Unsigned(-(scale as int), 1), 1); Signed(b[0], 1) == -(scale as int)
  {
    PowValues();
    SignedRoundTrip(-(scale as int), 1);
    assert LittleEndian(Unsigned(-(scale as int), 1), 1)[0] == Unsigned(-(scale as int), 1) % 256;
  }

  lemma {:induction false} DecimalReadBack(mantissa: int, scale: nat, post: seq<byte>)
    requires scale <= MAX_SCALE
    ensures var bytes := LittleEndian(Unsigned(mantissa, 8), 8) + LittleEndian(Unsigned(-(scale as int), 1), 1);
            ReadDecimal(bytes + post) == Ok(Decimal(Signed(Unsigned(mantissa, 8), 8), scale))
  {
    ScaleByte(scale);
    hide LittleEndian, FromLittleEndian, Signed, Pow256, Unsigned;
    var high, low := LittleEndian(Unsigned(mantissa, 8), 8), LittleEndian(Unsigned(-(scale as int), 1), 1);
    var rest := high + low + post;
    assert rest[..8] == high;
    assert rest[8] == low[0];
    LittleEndianRoundTrip(Unsigned(mantissa, 8), 8);
  }

  lemma {:induction false} Pow10Values(e: nat)
    ensures Pow10(0) == 1 && Pow10(1) == 10 && Pow10(2) == 100 && Pow10(e + 1) == 10 * Pow10(e)
    ensures Pow10(18) == 1_000_000_000_000_000_000
    ensures e > 18 ==> Pow10(e) >= 10_000_000_000_000_000_000
  {
    assert Pow10(6) == 1_000_000;
    assert Pow10(12) == 1_000_000_000_000;
    if e > 19 {
      Pow10Values(e - 1);
    }
  }

  /** A decimal on the wire: eight bytes of signed mantissa and one of signed
      exponent. A positive exponent multiplies the mantissa out, as far as 64
      bits go; one below -28 is more places than a decimal has. */
  lemma {:induction false} DecimalOctets(rest: seq<byte>)
    requires |rest| >= 9
    ensures var m := if Eight(rest, 0) < 0x8000_0000_0000_0000 then Eight(rest, 0) else Eight(rest, 0) - 0x1_0000_0000_0000_0000;
            var e := if rest[8] < 128 then rest[8] as int else rest[8] as int - 256;
            ReadDecimal(rest) ==
            if e < -28 then Panic
            else if e <= 0 then Ok(Decimal(m, -e))
            else if e > 18 || !(-0x8000_0000_0000_0000 <= m * Pow10(e) < 0x8000_0000_0000_0000) then Err(InvalidDecimal)
            else Ok(Decimal(m * Pow10(e), 0))
  {
    EightOctets(rest[..8]);
    assert Eight(rest, 0) == Eight(rest[..8], 0);
    PowValues();
    var e := Signed(rest[8], 1);
    if e > 0 {
      Pow10Values(e);
      Pow10Small(e);
    }
    hide Pow10, Pow256, FromLittleEndian;
  }

  lemma {:induction false} Pow10Small(e: nat)
    ensures e <= 18 ==> Pow10(e) <= 1_000_000_000_000_000_000
    decreases 18 - e
  {
    if e < 18 {
      Pow10Small(e + 1);
      Pow10Values(e);
    } else {
      Pow10Values(18);
    }
  }

  /** Mantissa 5 and exponent 2 read as 500. */
  lemma {:induction false} FiveHundred(post: seq<byte>)
    ensures ReadDecimal([5, 0, 0, 0, 0, 0, 0, 0, 2] + post) == Ok(Decimal(500, 0))
  {
    hide ReadDecimal;
    DecimalOctets([5, 0, 0, 0, 0, 0, 0, 0, 2] + post);
    Pow10Values(2);
  }

  /** A field reads back unchanged, whatever follows it, exactly when the wire
      can carry its value. */
  lemma {:induction false} FieldRoundTrip(kind: Kind, v: Value, post: seq<byte>, offset: nat)
    requires ValidKind(kind) && WellTyped(kind, v)
    ensures ReadField(kind, FieldBytes(kind, v) + post, offset) == Ok((v, FieldSize(kind, v))) <==> Carried(v)
  {
    var bytes := FieldBytes(kind, v);
    var rest := bytes + post;
    match kind
    case UuidKind => UuidReadBack(v, post);
    case CodeKind(_) =>
    case FlagKind =>
    case AmountKind => AmountReadBack(kind, v, post, offset);
    case DecimalKind => AmountReadBack(kind, v, post, offset);
    case IntKind(width) =>
      assert rest[..width] == bytes;
      LittleEndianRoundTrip(Unsigned(v.i, width), width);
      SignedRoundTrip(v.i, width);
    case TimeKind =>
      assert rest[..8] == bytes;
      LittleEndianRoundTrip(Unsigned(v.nanos, 8), 8);
      SignedRoundTrip(v.nanos, 8);
    case TextKind => TextReadBack(v, post, offset);
  }

  lemma {:induction false} UuidReadBack(v: Value, post: seq<byte>)
    requires v.Uuid? && |v.octets| == 16
    ensures FieldBytes(UuidKind, v) == v.octets
    ensures ReadField(UuidKind, FieldBytes(UuidKind, v) + post, 0) == Ok((v, 16))
  {
    hide LittleEndian, FromLittleEndian;
    var rest := FieldBytes(UuidKind, v) + post;
    LittleEndianOnto(v.octets[..8]);
    LittleEndianOnto(v.octets[8..]);
    assert v.octets == v.octets[..8] + v.octets[8..];
    assert rest[..8] == v.octets[..8] && rest[8..16] == v.octets[8..];
  }

  lemma {:induction false} AmountReadBack(kind: Kind, v: Value, post: seq<byte>, offset: nat)
    requires (kind == AmountKind || kind == DecimalKind) && WellTyped(kind, v)
    ensures ReadField(kind, FieldBytes(kind, v) + post, offset) == Ok((v, 9)) <==> Carried(v)
  {
    DecimalReadBack(v.mantissa, v.scale, post);
    SignedRoundTrip(v.mantissa, 8);
  }

  lemma {:induction false} TextReadBack(v: Value, post: seq<byte>, offset: nat)
    requires v.Text? && ValidUtf8(v.utf8)
    ensures ReadField(TextKind, FieldBytes(TextKind, v) + post, offset) == Ok((v, 4 + |v.utf8|)) <==> Carried(v)
  {
    hide LittleEndian, FromLittleEndian, Pow256, ValidUtf8;
    var n := |v.utf8| % Pow256(4);
    WrapAround(|v.utf8|, Pow256(4));
    var head := LittleEndian(n, 4);
    var rest := head + v.utf8 + post;
    assert rest[..4] == head;
    LittleEndianRoundTrip(n, 4);
    if |v.utf8| < Pow256(4) {
      assert rest[4..4 + n] == v.utf8;
    }
  }

  /** What a read yields is well typed and something the wire can carry. */
  lemma {:induction false} ReadIsWellTyped(kind: Kind, rest: seq<byte>, offset: nat)
    requires ValidKind(kind) && ReadField(kind, rest, offset).Ok?
    ensures var v := ReadField(kind, rest, offset).value.0;
            && WellTyped(kind, v)
            && Carried(v)
            && ReadField(kind, rest, offset).value.1 == FieldSize(kind, v)
  {
    PowValues();
    match kind
    case AmountKind => ReadDecimalFits(rest);
    case DecimalKind => ReadDecimalFits(rest);
    case IntKind(width) => LittleEndianOnto(rest[..width]);
    case TimeKind => LittleEndianOnto(rest[..8]);
    case TextKind => LittleEndianOnto(rest[..4]);
    case _ =>
  }

  lemma {:induction false} ReadDecimalFits(rest: seq<byte>)
    requires ReadDecimal(rest).Ok?
    ensures var d := ReadDecimal(rest).value; Fits(d.mantissa, 8) && d.scale <= MAX_SCALE
  {
    LittleEndianOnto(rest[..8]);
    PowValues();
  }

  /** More bytes behind a field that reads successfully do not change it. */
  lemma {:induction false} ReadIgnoresTail(kind: Kind, rest: seq<byte>, more: seq<byte>, offset: nat)
    requires ValidKind(kind) && ReadField(kind, rest, offset).Ok?
    ensures ReadField(kind, rest + more, offset) == ReadField(kind, rest, offset)
  {
    var all := rest + more;
    var n := ReadField(kind, rest, offset).value.1;
    assert forall i, j :: 0 <= i <= j <= |rest| ==> all[i..j] == rest[i..j];
    if |rest| >= 8 { assert all[..8] == rest[..8]; }
    if |rest| >= 4 { assert all[..4] == rest[..4]; }
  }
}
