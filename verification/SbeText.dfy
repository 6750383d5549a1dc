/** The texts that the wire accepts: exactly the UTF-8 encodings of sequences of
    Unicode scalar values (RFC 3629, section 3). */
module SbeText {
  import opened Bytes
  import opened SbeFields

  /** A code point that is not a surrogate. */
  predicate Scalar(c: nat) {
    c < 0xD800 || 0xE000 <= c < 0x11_0000
  }

  function EncodedScalar(c: nat): (b: seq<byte>)
    requires Scalar(c)
    ensures b != []
  {
    if c < 0x80 then [c]
    else if c < 0x800 then [0xC0 + c / 0x40, 0x80 + c % 0x40]
    else if c < 0x1_0000 then [0xE0 + c / 0x1000, 0x80 + c / 0x40 % 0x40, 0x80 + c % 0x40]
    else [0xF0 + c / 0x4_0000, 0x80 + c / 0x1000 % 0x40, 0x80 + c / 0x40 % 0x40, 0x80 + c % 0x40]
  }

  ghost predicate AllScalars(cs: seq<nat>) {
    forall i :: 0 <= i < |cs| ==> Scalar(cs[i])
  }

  ghost function EncodedText(cs: seq<nat>): (b: seq<byte>)
    requires AllScalars(cs)
  {
    if cs == [] then [] else EncodedScalar(cs[0]) + EncodedText(cs[1..])
  }

  lemma {:induction false} ScalarIsSequence(c: nat, post: seq<byte>)
    requires Scalar(c)
    ensures SequenceLength(EncodedScalar(c) + post) == |EncodedScalar(c)|
  {
  }

  /** The six bits of a continuation byte come back out of the sum. */
  lemma {:induction false} LowBits(high: nat, low: nat)
    requires low < 0x40
    ensures (high * 0x40 + low) / 0x40 == high && (high * 0x40 + low) % 0x40 == low
  {
  }

  /** The scalar value at the front of a well-formed text. */
  lemma {:induction false} SequenceIsScalar(b: seq<byte>) returns (c: nat)
    requires SequenceLength(b) > 0
    ensures Scalar(c) && EncodedScalar(c) == b[..SequenceLength(b)]
  {
    var n := SequenceLength(b);
    if n == 1 {
      c := b[0];
    } else if n == 2 {
      c := TwoBytes(b);
    } else if n == 3 {
      c := ThreeBytes(b);
    } else {
      c := FourBytes(b);
    }
  }

  lemma {:induction false} TwoBytes(b: seq<byte>) returns (c: nat)
    requires SequenceLength(b) == 2
    ensures Scalar(c) && EncodedScalar(c) == b[..2]
  {
    var h, x := b[0] as int - 0xC0, b[1] as int - 0x80;
    c := h * 0x40 + x;
    LowBits(h, x);
  }

  lemma {:induction false} ThreeBytes(b: seq<byte>) returns (c: nat)
    requires SequenceLength(b) == 3
    ensures Scalar(c) && EncodedScalar(c) == b[..3]
  {
    var h, x, y := b[0] as int - 0xE0, b[1] as int - 0x80, b[2] as int - 0x80;
    c := (h * 0x40 + x) * 0x40 + y;
    LowBits(h * 0x40 + x, y);
    LowBits(h, x);
    assert c / 0x1000 == h && 0x800 <= c < 0x1_0000 && Scalar(c);
    hide SequenceLength;
  }

  lemma {:induction false} FourBytes(b: seq<byte>) returns (c: nat)
    requires SequenceLength(b) == 4
    ensures Scalar(c) && EncodedScalar(c) == b[..4]
  {
    var h, x, y, z := b[0] as int - 0xF0, b[1] as int - 0x80, b[2] as int - 0x80, b[3] as int - 0x80;
    c := ((h * 0x40 + x) * 0x40 + y) * 0x40 + z;
    LowBits((h * 0x40 + x) * 0x40 + y, z);
    LowBits(h * 0x40 + x, y);
    LowBits(h, x);
    assert c / 0x1000 == h * 0x40 + x && c / 0x4_0000 == h;
    assert 0x1_0000 <= c < 0x11_0000;
    hide SequenceLength;
  }

  lemma {:induction false} EncodedTextIsValid(cs: seq<nat>)
    requires AllScalars(cs)
    ensures ValidUtf8(EncodedText(cs))
  {
    if cs != [] {
      ScalarIsSequence(cs[0], EncodedText(cs[1..]));
      EncodedTextIsValid(cs[1..]);
      hide SequenceLength, EncodedScalar;
      var first := EncodedScalar(cs[0]);
      assert EncodedText(cs)[|first|..] == EncodedText(cs[1..]);
    }
  }

  lemma {:induction false} ValidTextIsEncoded(b: seq<byte>) returns (cs: seq<nat>)
    requires ValidUtf8(b)
    ensures AllScalars(cs) && EncodedText(cs) == b
  {
    hide SequenceLength, EncodedScalar;
    if b == [] {
      cs := [];
    } else {
      var n := SequenceLength(b);
      var c := SequenceIsScalar(b);
      var others := ValidTextIsEncoded(b[n..]);
      cs := [c] + others;
      assert cs[1..] == others && b == b[..n] + b[n..];
    }
  }

  lemma {:induction false} Utf8Exactly(b: seq<byte>)
    ensures ValidUtf8(b) <==> exists cs :: AllScalars(cs) && EncodedText(cs) == b
  {
    if ValidUtf8(b) {
      var cs := ValidTextIsEncoded(b);
    }
    if cs :| AllScalars(cs) && EncodedText(cs) == b {
      EncodedTextIsValid(cs);
    }
  }
}
