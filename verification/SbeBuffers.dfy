/** Encoding in place into a byte buffer, and decoding from one, with a running
    offset. Both are proved against the layouts. The code repeats one statement
    per field; here the field list of a message is data and a loop walks it. */
module SbeBuffers {
  import opened Bytes
  import opened SbeFields
  import opened SbeLayout

  /** Copies `bytes` into the buffer at `offset`. */
  method Put(buffer: array<byte>, offset: nat, bytes: seq<byte>)
    requires offset + |bytes| <= buffer.Length
    modifies buffer
    ensures buffer[..] == old(buffer[..offset]) + bytes + old(buffer[offset + |bytes|..])
  {
    forall i | 0 <= i < |bytes| {
      buffer[offset + i] := bytes[i];
    }
  }

  /** Writes fields from `offset` on and stops at a timestamp the wire format
      cannot hold. Nothing outside their place changes. */
  method PutFields(kinds: seq<Kind>, vs: seq<Value>, buffer: array<byte>, offset: nat) returns (r: Outcome<nat>)
    requires ValidKinds(kinds) && WellTypedAll(kinds, vs)
    requires offset + FieldsSize(kinds, vs) <= buffer.Length
    modifies buffer
    ensures var end := offset + FieldsSize(kinds, vs);
            && r == (if EncodableAll(vs) then Ok(end) else Err(InvalidTimestamp))
            && buffer[..offset] == old(buffer[..offset]) && buffer[end..] == old(buffer[end..])
            && (EncodableAll(vs) ==> buffer[offset..end] == FieldsBytes(kinds, vs))
  {
    hide FieldBytes, FieldSize, FieldsBytes, FieldsSize, WellTyped, WellTypedAll, ValidKind, ValidKinds, Encodable;
    ghost var end := offset + FieldsSize(kinds, vs);
    var at := offset;
    var i := 0;
    assert kinds[0..] == kinds && vs[0..] == vs;
    while i < |kinds|
      invariant 0 <= i <= |kinds|
      invariant ValidKinds(kinds[i..]) && WellTypedAll(kinds[i..], vs[i..])
      invariant offset <= at && at + FieldsSize(kinds[i..], vs[i..]) == end
      invariant forall k :: 0 <= k < i ==> Encodable(vs[k])
      invariant buffer[..offset] == old(buffer[..offset]) && buffer[end..] == old(buffer[end..])
      invariant buffer[offset..at] + FieldsBytes(kinds[i..], vs[i..]) == FieldsBytes(kinds, vs)
    {
      FieldsStep(kinds, vs, i);
      if !Encodable(vs[i]) {
        return Err(InvalidTimestamp);
      }
      ghost var was := buffer[..];
      ghost var from := at;
      Put(buffer, at, FieldBytes(kinds[i], vs[i]));
      at := at + FieldSize(kinds[i], vs[i]);
      PutKeeps(was, buffer[..], offset, from, FieldBytes(kinds[i], vs[i]), end);
      i := i + 1;
    }
    FieldsEnd();
    assert kinds[i..] == [] && vs[i..] == [];
    r := Ok(at);
  }

  /** What one more field adds to the fields behind it. */
  lemma {:induction false} FieldsStep(kinds: seq<Kind>, vs: seq<Value>, i: nat)
    requires i < |kinds| == |vs| && ValidKinds(kinds[i..]) && WellTypedAll(kinds[i..], vs[i..])
    ensures ValidKind(kinds[i]) && WellTyped(kinds[i], vs[i])
    ensures ValidKinds(kinds[i + 1..]) && WellTypedAll(kinds[i + 1..], vs[i + 1..])
    ensures FieldsSize(kinds[i..], vs[i..]) == FieldSize(kinds[i], vs[i]) + FieldsSize(kinds[i + 1..], vs[i + 1..])
    ensures |FieldBytes(kinds[i], vs[i])| == FieldSize(kinds[i], vs[i])
    ensures FieldsBytes(kinds[i..], vs[i..]) == FieldBytes(kinds[i], vs[i]) + FieldsBytes(kinds[i + 1..], vs[i + 1..])
  {
    hide FieldBytes, FieldSize, WellTyped, ValidKind, Encodable;
    assert kinds[i..][0] == kinds[i] && vs[i..][0] == vs[i];
    assert kinds[i..][1..] == kinds[i + 1..] && vs[i..][1..] == vs[i + 1..];
    FieldBytesSize(kinds[i], vs[i]);
  }

  lemma {:induction false} FieldsEnd()
    ensures ValidKinds([]) && WellTypedAll([], []) && FieldsSize([], []) == 0 && FieldsBytes([], []) == []
  {
  }

  /** What one Put inside [from, end) does to the parts around it. */
  lemma {:induction false} PutKeeps(was: seq<byte>, now: seq<byte>, from: nat, at: nat, bytes: seq<byte>, end: nat)
    requires from <= at && at + |bytes| <= end <= |was|
    requires now == was[..at] + bytes + was[at + |bytes|..]
    ensures |now| == |was|
    ensures now[..from] == was[..from] && now[end..] == was[end..]
    ensures now[from..at + |bytes|] == was[from..at] + bytes
  {
  }

  /** Writes the entries of the quotes group one after the other. */
  method PutGroup(group: seq<seq<Value>>, buffer: array<byte>, offset: nat) returns (r: Outcome<nat>)
    requires WellTypedGroup(group) && ValidKinds(QUOTE_KINDS)
    requires offset + GroupSize(group) <= buffer.Length
    modifies buffer
    ensures var end := offset + GroupSize(group);
            && r == (if EncodableGroup(group) then Ok(end) else Err(InvalidTimestamp))
            && buffer[..offset] == old(buffer[..offset]) && buffer[end..] == old(buffer[end..])
            && (EncodableGroup(group) ==> buffer[offset..end] == GroupBytes(group))
  {
    hide WellTyped, ValidKind, Encodable, FieldsSize, FieldsBytes, WellTypedAll, EncodableAll, ValidKinds;
    hide GroupSize, GroupBytes, WellTypedGroup, EncodeOutcome, LittleEndian;
    ghost var end := offset + GroupSize(group);
    var at := offset;
    var i := 0;
    assert group[0..] == group;
    while i < |group|
      invariant 0 <= i <= |group|
      invariant WellTypedGroup(group[i..])
      invariant offset <= at && at + GroupSize(group[i..]) == end
      invariant forall k :: 0 <= k < i ==> EncodableAll(group[k])
      invariant buffer[..offset] == old(buffer[..offset]) && buffer[end..] == old(buffer[end..])
      invariant buffer[offset..at] + GroupBytes(group[i..]) == GroupBytes(group)
    {
      GroupStep(group, i);
      ghost var was := buffer[..];
      var next := PutFields(QUOTE_KINDS, group[i], buffer, at);
      ghost var to := at + FieldsSize(QUOTE_KINDS, group[i]);
      Around(was, buffer[..], offset, at, to, end);
      if next.Err? {
        return Err(InvalidTimestamp);
      }
      Associate(was[offset..at], FieldsBytes(QUOTE_KINDS, group[i]), GroupBytes(group[i + 1..]));
      at := next.Extract();
      i := i + 1;
    }
    GroupEnd();
    assert group[i..] == [];
    r := Ok(at);
  }

  lemma {:induction false} Associate(a: seq<byte>, b: seq<byte>, c: seq<byte>)
    ensures a + b + c == a + (b + c)
  {
  }

  lemma {:induction false} GroupStep(group: seq<seq<Value>>, i: nat)
    requires i < |group| && WellTypedGroup(group[i..])
    ensures WellTypedAll(QUOTE_KINDS, group[i]) && WellTypedGroup(group[i + 1..])
    ensures GroupSize(group[i..]) == FieldsSize(QUOTE_KINDS, group[i]) + GroupSize(group[i + 1..])
    ensures ValidKinds(QUOTE_KINDS) && GroupBytes(group[i..]) == FieldsBytes(QUOTE_KINDS, group[i]) + GroupBytes(group[i + 1..])
  {
    hide FieldsSize, FieldsBytes, WellTypedAll, EncodableAll;
    assert group[i..][0] == group[i] && group[i..][1..] == group[i + 1..];
  }

  lemma {:induction false} GroupEnd()
    ensures WellTypedGroup([]) && GroupSize([]) == 0 && GroupBytes([]) == []
  {
  }

  /** A write confined to [at, to) leaves the parts around it alone. */
  lemma {:induction false} Around(was: seq<byte>, now: seq<byte>, from: nat, at: nat, to: nat, end: nat)
    requires from <= at <= to <= end <= |was| == |now|
    requires now[..at] == was[..at] && now[to..] == was[to..]
    ensures now[..from] == was[..from] && now[end..] == was[end..]
    ensures now[from..to] == was[from..at] + now[at..to]
  {
    assert now[..from] == now[..at][..from] && was[..from] == was[..at][..from];
    assert now[end..] == now[to..][end - to..] && was[end..] == was[to..][end - to..];
    assert now[from..at] == now[..at][from..] && was[from..at] == was[..at][from..];
  }

  /** The whole of `encode`: how it ends, and what it leaves in the buffer. */
  ghost function EncodeOutcome(t: Template, p: Parts, available: nat): Outcome<nat>
    requires WellTypedParts(t, p)
  {
    var size := EncodedSize(t, p);
    if available < size then Err(BufferTooSmall(size, available))
    else if EncodeError(p).Ok? then Ok(size)
    else Err(EncodeError(p).error)
  }

  /** Encoding needs as many bytes as the message has, and reports that. */
  lemma {:induction false} NeedsItsSize(t: Template, p: Parts, available: nat)
    requires WellTypedParts(t, p)
    ensures EncodeOutcome(t, p, available) ==
            if available < |MessageBytes(t, p)| then Err(BufferTooSmall(|MessageBytes(t, p)|, available))
            else if EncodeError(p).Ok? then Ok(|MessageBytes(t, p)|)
            else Err(EncodeError(p).error)
  {
    hide MessageBytes, WellTypedParts, EncodeError;
    MessageBytesExact(t, p);
  }

  lemma {:induction false} EncodeErrorIsError(p: Parts)
    ensures !EncodeError(p).Panic?
  {
  }

  /** Encodes into the front of the buffer. On success exactly the first
      `encoded_size` bytes are the message; in every case the bytes behind them
      are untouched, and a buffer that is too small is not touched at all. */
  method EncodeInto(t: Template, p: Parts, buffer: array<byte>) returns (r: Outcome<nat>)
    requires WellTypedParts(t, p)
    modifies buffer
    ensures r == EncodeOutcome(t, p, buffer.Length)
    ensures r.Ok? ==> buffer[..] == MessageBytes(t, p) + old(buffer[EncodedSize(t, p)..])
    ensures EncodedSize(t, p) <= buffer.Length ==> buffer[EncodedSize(t, p)..] == old(buffer[EncodedSize(t, p)..])
    ensures EncodedSize(t, p) > buffer.Length ==> buffer[..] == old(buffer[..])
  {
    hide *;
    EncodeSteps(t, p, buffer.Length);
    var size := EncodedSize(t, p);
    if buffer.Length < size {
      return Err(BufferTooSmall(size, buffer.Length));
    }
    ghost var behind := buffer[size..];
    r := EncodeHead(t, p.fixed, buffer, size);
    if r.Err? {
      return;
    }
    var head := r.value;
    r := EncodeRest(t, p, buffer, head, size);
    if r.Err? {
      return;
    }
    MessageInOrder(t, p);
    assert buffer[..] == buffer[..head] + buffer[head..size] + behind;
  }

  /** What follows the fixed block: the group and the texts. */
  method EncodeRest(t: Template, p: Parts, buffer: array<byte>, head: nat, ghost size: nat) returns (r: Outcome<nat>)
    requires ValidKinds(TailKinds(t)) && WellTypedAll(TailKinds(t), p.tail) && EncodableAll(p.tail)
    requires WellTypedGroup(p.group) && (!t.IsRfqResponse() ==> p.group == [])
    requires head + GroupHeaderSize(t) + GroupSize(p.group) + FieldsSize(TailKinds(t), p.tail) == size <= buffer.Length
    modifies buffer
    ensures r == (if |p.group| > MAX_GROUP then Err(InvalidFieldValue)
                  else if !EncodableGroup(p.group) then Err(InvalidTimestamp) else Ok(size))
    ensures buffer[..head] == old(buffer[..head]) && buffer[size..] == old(buffer[size..])
    ensures r.Ok? ==>
              buffer[head..size] == GroupHeaderBytes(t, |p.group|) + GroupBytes(p.group) + FieldsBytes(TailKinds(t), p.tail)
  {
    hide *;
    r := EncodeGroupInto(t, p.group, buffer, head, size);
    if r.Err? {
      return;
    }
    var at := r.value;
    ghost var was := buffer[..];
    r := PutFields(TailKinds(t), p.tail, buffer, at);
    Around(was, buffer[..], head, at, size, size);
    assert was[head..at] == GroupHeaderBytes(t, |p.group|) + GroupBytes(p.group);
  }

  /** The header and the fixed block. */
  method EncodeHead(t: Template, fixed: seq<Value>, buffer: array<byte>, ghost size: nat) returns (r: Outcome<nat>)
    requires ValidKinds(FixedKinds(t)) && WellTypedAll(FixedKinds(t), fixed)
    requires HEADER_SIZE + FieldsSize(FixedKinds(t), fixed) <= size <= buffer.Length
    modifies buffer
    ensures var end := HEADER_SIZE + FieldsSize(FixedKinds(t), fixed);
            && r == (if EncodableAll(fixed) then Ok(end) else Err(InvalidTimestamp))
            && buffer[size..] == old(buffer[size..])
            && (r.Ok? ==> buffer[..end] == HeaderBytes(t) + FieldsBytes(FixedKinds(t), fixed))
  {
    hide *;
    ghost var end := HEADER_SIZE + FieldsSize(FixedKinds(t), fixed);
    ghost var before := buffer[..];
    Put(buffer, 0, HeaderBytes(t));
    assert buffer[..HEADER_SIZE] == HeaderBytes(t);
    ghost var was := buffer[..];
    assert was[size..] == before[size..];
    r := PutFields(FixedKinds(t), fixed, buffer, HEADER_SIZE);
    Around(was, buffer[..], 0, HEADER_SIZE, end, size);
  }

  /** The outcome, step by step, and what each step may rely on. */
  lemma {:induction false} EncodeSteps(t: Template, p: Parts, available: nat)
    requires WellTypedParts(t, p)
    ensures ValidKinds(FixedKinds(t)) && ValidKinds(TailKinds(t))
    ensures WellTypedAll(FixedKinds(t), p.fixed) && WellTypedAll(TailKinds(t), p.tail)
    ensures WellTypedGroup(p.group) && (!t.IsRfqResponse() ==> p.group == [])
    ensures EncodableAll(p.tail)
    ensures EncodedSize(t, p) == HEADER_SIZE + FieldsSize(FixedKinds(t), p.fixed)
              + GroupHeaderSize(t) + GroupSize(p.group) + FieldsSize(TailKinds(t), p.tail)
    ensures EncodeError(p).Ok? <==> EncodableAll(p.fixed) && |p.group| <= MAX_GROUP && EncodableGroup(p.group)
    ensures EncodeOutcome(t, p, available) ==
            if available < EncodedSize(t, p) then Err(BufferTooSmall(EncodedSize(t, p), available))
            else if !EncodableAll(p.fixed) then Err(InvalidTimestamp)
            else if |p.group| > MAX_GROUP then Err(InvalidFieldValue)
            else if !EncodableGroup(p.group) then Err(InvalidTimestamp)
            else Ok(EncodedSize(t, p))
  {
    LayoutsValid(t);
    FixedSizeExact(t, p);
    TextsEncodable(t, p);
  }

  lemma {:induction false} FixedSizeExact(t: Template, p: Parts)
    requires WellTypedParts(t, p)
    ensures FieldsSize(FixedKinds(t), p.fixed) == BlockLength(t)
  {
    BlockLengthsExact(t);
    FixedFieldsSize(FixedKinds(t), p.fixed);
  }

  lemma {:induction false} MessageInOrder(t: Template, p: Parts)
    requires WellTypedParts(t, p)
    requires ValidKinds(FixedKinds(t)) && ValidKinds(TailKinds(t))
    ensures MessageBytes(t, p) == HeaderBytes(t) + FieldsBytes(FixedKinds(t), p.fixed)
              + (GroupHeaderBytes(t, |p.group|) + GroupBytes(p.group) + FieldsBytes(TailKinds(t), p.tail))
  {
    hide HeaderBytes, FieldsBytes, GroupBytes, FixedKinds, TailKinds, GroupHeaderBytes;
    Flatten(HeaderBytes(t), FieldsBytes(FixedKinds(t), p.fixed), GroupHeaderBytes(t, |p.group|), GroupBytes(p.group),
            FieldsBytes(TailKinds(t), p.tail));
  }

  lemma {:induction false} Flatten(a: seq<byte>, b: seq<byte>, c: seq<byte>, d: seq<byte>, e: seq<byte>)
    ensures a + (b + (c + (d + e))) == a + b + (c + d + e)
  {
  }

  /** The group header: block length, then the count if it fits. */
  method PutGroupHeader(count: nat, buffer: array<byte>, at: nat) returns (fits: bool)
    requires at + GROUP_HEADER_SIZE <= buffer.Length
    modifies buffer
    ensures fits == (count <= MAX_GROUP)
    ensures buffer[..at] == old(buffer[..at])
    ensures buffer[at + GROUP_HEADER_SIZE..] == old(buffer[at + GROUP_HEADER_SIZE..])
    ensures fits ==> buffer[at..at + GROUP_HEADER_SIZE] == LittleEndian(QUOTE_BLOCK_LENGTH, 2) + LittleEndian(count, 2)
  {
    hide LittleEndian;
    Put(buffer, at, LittleEndian(QUOTE_BLOCK_LENGTH, 2));
    if count <= MAX_GROUP {
      Put(buffer, at + 2, LittleEndian(count, 2));
    }
    fits := count <= MAX_GROUP;
  }

  /** The group header and the entries, for a message that has a group. */
  method EncodeGroupInto(t: Template, group: seq<seq<Value>>, buffer: array<byte>, at: nat, ghost size: nat) returns (r: Outcome<nat>)
    requires WellTypedGroup(group) && (!t.IsRfqResponse() ==> group == [])
    requires at + GroupHeaderSize(t) + GroupSize(group) <= size <= buffer.Length
    modifies buffer
    ensures var end := at + GroupHeaderSize(t) + GroupSize(group);
            && r == (if |group| > MAX_GROUP then Err(InvalidFieldValue)
                     else if !EncodableGroup(group) then Err(InvalidTimestamp) else Ok(end))
            && buffer[..at] == old(buffer[..at]) && buffer[size..] == old(buffer[size..])
            && (r.Ok? ==> buffer[at..end] == GroupHeaderBytes(t, |group|) + GroupBytes(group))
  {
    if !t.IsRfqResponse() {
      return Ok(at);
    }
    assert ValidKinds(QUOTE_KINDS);
    hide LittleEndian, WellTypedAll, EncodableAll, WellTypedGroup, EncodableGroup, ValidKinds, GroupSize, GroupBytes;
    var body := at + GROUP_HEADER_SIZE;
    ghost var was := buffer[..];
    var fits := PutGroupHeader(|group|, buffer, at);
    Around(was, buffer[..], 0, at, body, size);
    if !fits {
      return Err(InvalidFieldValue);
    }
    was := buffer[..];
    r := PutGroup(group, buffer, body);
    Around(was, buffer[..], at, body, body + GroupSize(group), size);
    assert was[at..body] == GroupHeaderBytes(t, |group|);
  }

  // ---------------------------------------------------------------------
  // Decoding
  // ---------------------------------------------------------------------

  /** `before` values took `n` bytes; `r` is what reading goes on to find. */
  function Continued<T>(before: seq<T>, n: nat, r: Outcome<(seq<T>, nat)>): Outcome<(seq<T>, nat)> {
    if r.Ok? then Ok((before + r.value.0, n + r.value.1)) else r
  }

  method DecodeFields(kinds: seq<Kind>, buffer: seq<byte>, start: nat) returns (r: Outcome<(seq<Value>, nat)>)
    requires ValidKinds(kinds) && start <= |buffer|
    ensures r == ReadFields(kinds, buffer[start..], start)
  {
    hide ReadField, ReadFields, ValidKind;
    var offset := start;
    var vs := [];
    var i := 0;
    ghost var all := ReadFields(kinds, buffer[start..], start);
    assert kinds[0..] == kinds && (all.Ok? ==> [] + all.value.0 == all.value.0);
    while i < |kinds|
      invariant 0 <= i <= |kinds| && start <= offset <= |buffer|
      invariant all == Continued(vs, offset - start, ReadFields(kinds[i..], buffer[offset..], offset))
    {
      ReadStep(kinds[i..], buffer, offset, vs, offset - start);
      var field := ReadField(kinds[i], buffer[offset..], offset);
      if field.IsFailure() {
        return field.PropagateFailure();
      }
      assert kinds[i..][1..] == kinds[i + 1..];
      vs := vs + [field.value.0];
      offset := offset + field.value.1;
      i := i + 1;
    }
    ReadEnd(buffer[offset..], offset);
    assert kinds[i..] == [] && vs + [] == vs;
    r := Ok((vs, offset - start));
  }

  lemma {:induction false} ReadEnd(rest: seq<byte>, offset: nat)
    ensures ReadFields([], rest, offset) == Ok(([], 0)) && ReadGroup(0, rest, offset) == Ok(([], 0))
  {
  }

  lemma {:induction false} ContinuedStep<T>(before: seq<T>, taken: nat, x: T, n: nat, r: Outcome<(seq<T>, nat)>)
    ensures Continued(before, taken, if r.Ok? then Ok(([x] + r.value.0, n + r.value.1)) else r)
            == Continued(before + [x], taken + n, r)
  {
    if r.Ok? {
      assert before + ([x] + r.value.0) == before + [x] + r.value.0;
    }
  }

  lemma {:induction false} ContinuedFails<T>(before: seq<T>, taken: nat, r: Outcome<(seq<T>, nat)>)
    requires r.IsFailure()
    ensures Continued(before, taken, r) == r
  {
  }

  /** Reading the first field, then going on from where it ended. */
  lemma {:induction false} ReadStep(kinds: seq<Kind>, buffer: seq<byte>, offset: nat, vs: seq<Value>, taken: nat)
    requires kinds != [] && ValidKinds(kinds) && offset <= |buffer|
    ensures var field := ReadField(kinds[0], buffer[offset..], offset);
            Continued(vs, taken, ReadFields(kinds, buffer[offset..], offset)) ==
            if field.IsFailure() then field.PropagateFailure()
            else
              var next := offset + field.value.1;
              Continued(vs + [field.value.0], taken + field.value.1, ReadFields(kinds[1..], buffer[next..], next))
  {
    hide ReadField, Continued;
    var field := ReadField(kinds[0], buffer[offset..], offset);
    if field.Ok? {
      var (v, n) := field.value;
      assert buffer[offset..][n..] == buffer[offset + n..];
      ContinuedStep(vs, taken, v, n, ReadFields(kinds[1..], buffer[offset + n..], offset + n));
    } else {
      ContinuedFails(vs, taken, ReadFields(kinds, buffer[offset..], offset));
    }
  }

  /** The loop over the quotes group. */
  method DecodeGroup(count: nat, buffer: seq<byte>, start: nat) returns (r: Outcome<(seq<seq<Value>>, nat)>)
    requires ValidKinds(QUOTE_KINDS) && start <= |buffer|
    ensures r == ReadGroup(count, buffer[start..], start)
  {
    hide ReadFields, ReadGroup, ValidKinds;
    var offset := start;
    var quotes := [];
    ghost var all := ReadGroup(count, buffer[start..], start);
    assert all.Ok? ==> [] + all.value.0 == all.value.0;
    for i := 0 to count
      invariant start <= offset <= |buffer|
      invariant all == Continued(quotes, offset - start, ReadGroup(count - i, buffer[offset..], offset))
    {
      EntryStep(count - i, buffer, offset, quotes, offset - start);
      var entry := DecodeFields(QUOTE_KINDS, buffer, offset);
      if entry.IsFailure() {
        return entry.PropagateFailure();
      }
      quotes := quotes + [entry.value.0];
      offset := offset + entry.value.1;
    }
    ReadEnd(buffer[offset..], offset);
    assert quotes + [] == quotes;
    r := Ok((quotes, offset - start));
  }

  lemma {:induction false} EntryStep(count: nat, buffer: seq<byte>, offset: nat, quotes: seq<seq<Value>>, taken: nat)
    requires count > 0 && ValidKinds(QUOTE_KINDS) && offset <= |buffer|
    ensures var entry := ReadFields(QUOTE_KINDS, buffer[offset..], offset);
            Continued(quotes, taken, ReadGroup(count, buffer[offset..], offset)) ==
            if entry.IsFailure() then entry.PropagateFailure()
            else
              var next := offset + entry.value.1;
              Continued(quotes + [entry.value.0], taken + entry.value.1, ReadGroup(count - 1, buffer[next..], next))
  {
    hide ReadFields, ValidKinds, Continued;
    var entry := ReadFields(QUOTE_KINDS, buffer[offset..], offset);
    if entry.Ok? {
      var (vs, n) := entry.value;
      assert buffer[offset..][n..] == buffer[offset + n..];
      ContinuedStep(quotes, taken, vs, n, ReadGroup(count - 1, buffer[offset + n..], offset + n));
    } else {
      ContinuedFails(quotes, taken, ReadGroup(count, buffer[offset..], offset));
    }
  }

  /** What `decode` returns for a message of template t. */
  function Decoded(t: Template, b: seq<byte>): Outcome<Parts> {
    var (p, _) :- ReadMessage(t, b);
    Ok(p)
  }

  /** The outcome of decoding, step by step. */
  lemma {:induction false} DecodeSteps(t: Template, b: seq<byte>)
    ensures ValidKinds(FixedKinds(t)) && ValidKinds(QUOTE_KINDS) && ValidKinds(TailKinds(t))
    ensures Decoded(t, b) ==
            if |b| < HEADER_SIZE then Err(BufferTooSmall(HEADER_SIZE, |b|))
            else if FromLittleEndian(b[2..4]) != t.Id() then Err(UnknownTemplateId(FromLittleEndian(b[2..4])))
            else
              var fixed := ReadFields(FixedKinds(t), b[HEADER_SIZE..], HEADER_SIZE);
              if fixed.IsFailure() then fixed.PropagateFailure() else DecodedBody(t, b, fixed.value.0, HEADER_SIZE + fixed.value.1)
  {
    LayoutsValid(t);
    hide ReadFields, ReadGroupOf, FromLittleEndian, FixedKinds, TailKinds, ValidKinds;
  }

  /** The rest of a message: its group and its texts. */
  function DecodedBody(t: Template, b: seq<byte>, fixed: seq<Value>, offset: nat): Outcome<Parts>
    requires offset <= |b|
  {
    LayoutsValid(t);
    var (group, m) :- ReadGroupOf(t, b[offset..], offset);
    var (tail, _) :- ReadFields(TailKinds(t), b[offset + m..], offset + m);
    Ok(Parts(fixed, group, tail))
  }

  method DecodeFrom(t: Template, buffer: seq<byte>) returns (r: Outcome<Parts>)
    ensures r == Decoded(t, buffer)
  {
    hide ReadMessage, Decoded, ReadFields, ReadGroup, ReadGroupOf, FromLittleEndian, FixedKinds, TailKinds, ValidKinds;
    DecodeSteps(t, buffer);
    if |buffer| < HEADER_SIZE {
      return Err(BufferTooSmall(HEADER_SIZE, |buffer|));
    }
    var id := FromLittleEndian(buffer[2..4]);
    if id != t.Id() {
      return Err(UnknownTemplateId(id));
    }
    var fixed := DecodeFields(FixedKinds(t), buffer, HEADER_SIZE);
    if fixed.IsFailure() {
      return fixed.PropagateFailure();
    }
    var offset := HEADER_SIZE + fixed.value.1;
    var group := DecodeGroupOf(t, buffer, offset);
    if group.IsFailure() {
      return group.PropagateFailure();
    }
    offset := offset + group.value.1;
    var tail := DecodeFields(TailKinds(t), buffer, offset);
    if tail.IsFailure() {
      return tail.PropagateFailure();
    }
    r := Ok(Parts(fixed.value.0, group.value.0, tail.value.0));
  }

  method DecodeGroupOf(t: Template, buffer: seq<byte>, offset: nat) returns (r: Outcome<(seq<seq<Value>>, nat)>)
    requires offset <= |buffer| && ValidKinds(QUOTE_KINDS)
    ensures r == ReadGroupOf(t, buffer[offset..], offset)
  {
    hide ReadGroup, FromLittleEndian, ValidKinds;
    if !t.IsRfqResponse() {
      return Ok(([], 0));
    }
    if |buffer| - offset < GROUP_HEADER_SIZE {
      return Err(BufferTooSmall(offset + GROUP_HEADER_SIZE, |buffer|));
    }
    ghost var rest := buffer[offset..];
    assert rest[..2] == buffer[offset..offset + 2] && rest[2..4] == buffer[offset + 2..offset + 4];
    assert rest[4..] == buffer[offset + 4..];
    if FromLittleEndian(buffer[offset..offset + 2]) != QUOTE_BLOCK_LENGTH {
      return Err(InvalidHeader);
    }
    var group := DecodeGroup(FromLittleEndian(buffer[offset + 2..offset + 4]), buffer, offset + 4);
    if group.IsFailure() {
      return group.PropagateFailure();
    }
    r := Ok((group.value.0, group.value.1 + 4));
  }
}
