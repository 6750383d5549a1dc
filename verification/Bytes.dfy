/** Bytes, and integers written as bytes. */
module Bytes {

  type byte = b: int | 0 <= b < 256

  function Pow256(width: nat): (p: nat)
    ensures p >= 1
  {
    if width == 0 then 1 else 256 * Pow256(width - 1)
  }

  lemma {:induction false} PowValues()
    ensures Pow256(1) == 0x100
    ensures Pow256(2) == 0x1_0000
    ensures Pow256(4) == 0x1_0000_0000
    ensures Pow256(8) == 0x1_0000_0000_0000_0000
  {
    assert Pow256(0) == 1;
    assert Pow256(3) == 0x100_0000;
    assert Pow256(5) == 0x100_0000_0000;
    assert Pow256(6) == 0x1_0000_0000_0000;
    assert Pow256(7) == 0x100_0000_0000_0000;
  }

  /** Least significant byte first. */
  function LittleEndian(n: nat, width: nat): (b: seq<byte>)
    ensures |b| == width
  {
    if width == 0 then [] else [n % 256] + LittleEndian(n / 256, width - 1)
  }

  function FromLittleEndian(b: seq<byte>): (n: nat) {
    if b == [] then 0 else b[0] + 256 * FromLittleEndian(b[1..])
  }

  /** Most significant byte first. */
  function BigEndian(n: nat, width: nat): (b: seq<byte>)
    ensures |b| == width
  {
    if width == 0 then [] else BigEndian(n / 256, width - 1) + [n % 256]
  }

  function FromBigEndian(b: seq<byte>): (n: nat) {
    if b == [] then 0 else 256 * FromBigEndian(b[..|b| - 1]) + b[|b| - 1]
  }

  lemma {:induction false} LittleEndianRoundTrip(n: nat, width: nat)
    requires n < Pow256(width)
    ensures FromLittleEndian(LittleEndian(n, width)) == n
  {
    if width > 0 {
      LittleEndianRoundTrip(n / 256, width - 1);
      assert LittleEndian(n, width)[1..] == LittleEndian(n / 256, width - 1);
    }
  }

  lemma {:induction false} LittleEndianOnto(b: seq<byte>)
    ensures FromLittleEndian(b) < Pow256(|b|)
    ensures LittleEndian(FromLittleEndian(b), |b|) == b
  {
    if b != [] {
      LittleEndianOnto(b[1..]);
      var n := FromLittleEndian(b[1..]);
      assert (b[0] + 256 * n) / 256 == n && (b[0] + 256 * n) % 256 == b[0];
    }
  }

  lemma {:induction false} BigEndianRoundTrip(n: nat, width: nat)
    requires n < Pow256(width)
    ensures FromBigEndian(BigEndian(n, width)) == n
  {
    if width > 0 {
      BigEndianRoundTrip(n / 256, width - 1);
      assert BigEndian(n, width)[..width - 1] == BigEndian(n / 256, width - 1);
    }
  }

  /** Two's complement: what casting to an unsigned integer keeps. */
  function Unsigned(i: int, width: nat): (n: nat)
    ensures n < Pow256(width)
  {
    i % Pow256(width)
  }

  function Signed(n: nat, width: nat): int {
    if 2 * n >= Pow256(width) then n - Pow256(width) else n
  }

  /** i fits a signed integer of the width. */
  predicate Fits(i: int, width: nat) {
    0 <= 2 * i + Pow256(width) < 2 * Pow256(width)
  }

  lemma {:induction false} WrapAround(i: int, p: nat)
    requires p > 0
    ensures 0 <= i < p ==> i % p == i
    ensures i < 0 <= i + p ==> i % p == i + p
  {
    if i < 0 <= i + p {
      assert i == (i + p) + p * (-1);
    }
  }

  lemma {:induction false} SignedRoundTrip(i: int, width: nat)
    ensures Signed(Unsigned(i, width), width) == i <==> Fits(i, width)
    ensures Fits(Signed(Unsigned(i, width), width), width)
  {
    hide Pow256;
    WrapAround(i, Pow256(width));
  }

  // ---------------------------------------------------------------------
  // Integers read off their bytes
  // ---------------------------------------------------------------------

  function Two(b: seq<byte>, at: nat): int
    requires at + 2 <= |b|
  {
    b[at] as int + 0x100 * b[at + 1] as int
  }

  function Four(b: seq<byte>, at: nat): int
    requires at + 4 <= |b|
  {
    b[at] as int + 0x100 * b[at + 1] as int + 0x1_0000 * b[at + 2] as int + 0x100_0000 * b[at + 3] as int
  }

  function Eight(b: seq<byte>, at: nat): int
    requires at + 8 <= |b|
  {
    Four(b, at) + 0x1_0000_0000 * Four(b, at + 4)
  }

  /** Four bytes, the most significant first. */
  function FourFromFront(b: seq<byte>): int
    requires |b| >= 4
  {
    0x100_0000 * b[0] as int + 0x1_0000 * b[1] as int + 0x100 * b[2] as int + b[3] as int
  }

  lemma {:induction false} FirstOctet(b: seq<byte>)
    requires b != []
    ensures FromLittleEndian(b) == b[0] as int + 0x100 * FromLittleEndian(b[1..])
    ensures FromBigEndian(b) == 0x100 * FromBigEndian(b[..|b| - 1]) + b[|b| - 1] as int
  {
  }

  lemma {:induction false} TwoOctets(b: seq<byte>)
    requires |b| == 2
    ensures FromLittleEndian(b) == Two(b, 0)
  {
    FirstOctet(b);
    FirstOctet(b[1..]);
    assert b[1..][1..] == [];
  }

  lemma {:induction false} FourOctets(b: seq<byte>)
    requires |b| == 4
    ensures FromLittleEndian(b) == Four(b, 0) && FromBigEndian(b) == FourFromFront(b)
  {
    FirstOctet(b);
    FirstOctet(b[1..]);
    TwoOctets(b[2..]);
    assert b[1..][1..] == b[2..];
    FirstOctet(b[..3]);
    FirstOctet(b[..2]);
    FirstOctet(b[..1]);
    assert b[..3][..2] == b[..2] && b[..2][..1] == b[..1] && b[..1][..0] == [];
    hide FromLittleEndian;
  }

  lemma {:induction false} EightOctets(b: seq<byte>)
    requires |b| == 8
    ensures FromLittleEndian(b) == Eight(b, 0)
  {
    FirstOctet(b);
    FirstOctet(b[1..]);
    FirstOctet(b[2..]);
    FirstOctet(b[3..]);
    FourOctets(b[4..]);
    assert b[1..][1..] == b[2..] && b[2..][1..] == b[3..] && b[3..][1..] == b[4..];
    hide FromLittleEndian;
  }
}
