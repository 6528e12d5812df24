/** Bytes as bits and as numbers. */
module Bytes {
  type Byte = bv8

  function OfBits(b0: bool, b1: bool, b2: bool, b3: bool, b4: bool, b5: bool, b6: bool, b7: bool): Byte {
    (if b0 then 0x01 else 0) | (if b1 then 0x02 else 0) | (if b2 then 0x04 else 0) | (if b3 then 0x08 else 0)
    | (if b4 then 0x10 else 0) | (if b5 then 0x20 else 0) | (if b6 then 0x40 else 0) | (if b7 then 0x80 else 0)
  }

  /** A number without its lowest n bits. */
  function Halved(x: int, n: nat): int
    decreases n, x
  {
    if n == 0 then x else Halved(x / 2, n - 1)
  }

  function Bit(x: int, n: nat): bool {
    Halved(x, n) % 2 == 1
  }

  /** The low eight bits of a number. */
  function ByteOf(x: int): Byte {
    OfBits(Bit(x, 0), Bit(x, 1), Bit(x, 2), Bit(x, 3), Bit(x, 4), Bit(x, 5), Bit(x, 6), Bit(x, 7))
  }

  function Weight(on: bool, weight: nat): nat {
    if on then weight else 0
  }

  function Sum(b0: bool, b1: bool, b2: bool, b3: bool, b4: bool, b5: bool, b6: bool, b7: bool): nat {
    Weight(b0, 1) + Weight(b1, 2) + Weight(b2, 4) + Weight(b3, 8)
    + Weight(b4, 16) + Weight(b5, 32) + Weight(b6, 64) + Weight(b7, 128)
  }

  function NatOf(b: Byte): nat {
    Sum(b & 0x01 != 0, b & 0x02 != 0, b & 0x04 != 0, b & 0x08 != 0,
        b & 0x10 != 0, b & 0x20 != 0, b & 0x40 != 0, b & 0x80 != 0)
  }

  lemma NatOfBits(b0: bool, b1: bool, b2: bool, b3: bool, b4: bool, b5: bool, b6: bool, b7: bool)
    ensures NatOf(OfBits(b0, b1, b2, b3, b4, b5, b6, b7)) == Sum(b0, b1, b2, b3, b4, b5, b6, b7)
  {
  }

  lemma {:induction false} HalvedNext(x: int, n: nat)
    ensures Halved(x, n) == 2 * Halved(x, n + 1) + Weight(Bit(x, n), 1)
    decreases n
  {
    if n > 0 {
      HalvedNext(x / 2, n - 1);
    } else {
      assert Halved(x / 2, 0) == x / 2;
    }
  }

  function Nibble(b0: bool, b1: bool, b2: bool, b3: bool): nat {
    Weight(b0, 1) + Weight(b1, 2) + Weight(b2, 4) + Weight(b3, 8)
  }

  lemma FourBits(x: int, n: nat)
    ensures Halved(x, n) == 16 * Halved(x, n + 4) + Nibble(Bit(x, n), Bit(x, n + 1), Bit(x, n + 2), Bit(x, n + 3))
  {
    HalvedNext(x, n);
    HalvedNext(x, n + 1);
    HalvedNext(x, n + 2);
    HalvedNext(x, n + 3);
  }

  lemma SumOfHalves(b0: bool, b1: bool, b2: bool, b3: bool, b4: bool, b5: bool, b6: bool, b7: bool)
    ensures Sum(b0, b1, b2, b3, b4, b5, b6, b7) == Nibble(b0, b1, b2, b3) + 16 * Nibble(b4, b5, b6, b7)
  {
  }

  /** Eight bits of a number from bit n on. */
  function SumFrom(x: int, n: nat): nat {
    Sum(Bit(x, n), Bit(x, n + 1), Bit(x, n + 2), Bit(x, n + 3), Bit(x, n + 4), Bit(x, n + 5), Bit(x, n + 6), Bit(x, n + 7))
  }

  lemma EightBits(x: int, n: nat)
    ensures Halved(x, n) == 0x100 * Halved(x, n + 8) + SumFrom(x, n)
  {
    FourBits(x, n);
    FourBits(x, n + 4);
    SumOfHalves(Bit(x, n), Bit(x, n + 1), Bit(x, n + 2), Bit(x, n + 3),
                Bit(x, n + 4), Bit(x, n + 5), Bit(x, n + 6), Bit(x, n + 7));
  }

  lemma Divided(x: int, h: int, rest: int)
    requires x == 0x100 * h + rest && 0 <= rest < 0x100
    ensures x / 0x100 == h && x % 0x100 == rest
  {
  }

  /** A byte made of the low bits of a number is the number modulo 256. */
  lemma NatOfByteOf(x: int)
    ensures NatOf(ByteOf(x)) == x % 0x100
  {
    NatOfBits(Bit(x, 0), Bit(x, 1), Bit(x, 2), Bit(x, 3), Bit(x, 4), Bit(x, 5), Bit(x, 6), Bit(x, 7));
    EightBits(x, 0);
    Divided(x, Halved(x, 8), SumFrom(x, 0));
  }
}
