/** The driver's longs as numbers, and what that says about speeds and positions on the wire. */
module L6470Number {
  import opened Bytes
  import opened L6470Long

  /** The four bytes of a number in 32-bit two's complement. */
  function LongOf(n: int): Long {
    var h1 := n / 0x100;
    var h2 := h1 / 0x100;
    Long(ByteOf(n), ByteOf(h1), ByteOf(h2), ByteOf(h2 / 0x100))
  }

  /** The number that four bytes make as unsigned. */
  function NatOfLong(v: Long): nat {
    NatOf(v.b0) + 0x100 * NatOf(v.b1) + 0x1_0000 * NatOf(v.b2) + 0x100_0000 * NatOf(v.b3)
  }

  /** The number they make in two's complement. */
  function IntOf(v: Long): int {
    if v.Negative() then NatOfLong(v) - 0x1_0000_0000 else NatOfLong(v)
  }

  lemma NatOfLongOf(n: int)
    ensures n == NatOfLong(LongOf(n)) + 0x1_0000_0000 * (n / 0x100 / 0x100 / 0x100 / 0x100)
  {
    var h1 := n / 0x100;
    var h2 := h1 / 0x100;
    var h3 := h2 / 0x100;
    NatOfByteOf(n);
    NatOfByteOf(h1);
    NatOfByteOf(h2);
    NatOfByteOf(h3);
    Combined(n, h1, h2, h3, NatOf(ByteOf(n)), NatOf(ByteOf(h1)), NatOf(ByteOf(h2)), NatOf(ByteOf(h3)));
  }

  lemma Combined(n: int, h1: int, h2: int, h3: int, a0: int, a1: int, a2: int, a3: int)
    requires h1 == n / 0x100 && h2 == h1 / 0x100 && h3 == h2 / 0x100
    requires a0 == n % 0x100 && a1 == h1 % 0x100 && a2 == h2 % 0x100 && a3 == h3 % 0x100
    ensures n == a0 + 0x100 * a1 + 0x1_0000 * a2 + 0x100_0000 * a3 + 0x1_0000_0000 * (h3 / 0x100)
  {
  }

  lemma TopBit(b: Byte)
    ensures b & 0x80 != 0 <==> NatOf(b) >= 128
  {
  }

  // ---- on the wire

  lemma SmallByte(b: Byte)
    ensures (NatOf(b) == 0 <==> b == 0) && (NatOf(b) < 16 <==> b <= 0x0F) && (NatOf(b) < 64 <==> b <= 0x3F)
    ensures NatOf(b) < 64 ==> (b & 0x20 != 0 <==> NatOf(b) >= 32) && NatOf(b | 0xC0) == NatOf(b) + 192
  {
  }

  lemma UpperBytes(n: int)
    requires 0 <= n < 0x8000_0000
    ensures NatOf(LongOf(n).b2) + 0x100 * NatOf(LongOf(n).b3) == n / 0x1_0000
    ensures NatOf(LongOf(n).b2) == n / 0x1_0000 % 0x100
  {
    var h2 := n / 0x100 / 0x100;
    NatOfByteOf(h2);
    NatOfByteOf(h2 / 0x100);
    UpperHalf(n, h2, NatOf(ByteOf(h2)), NatOf(ByteOf(h2 / 0x100)));
  }

  lemma UpperHalf(n: int, h2: int, a2: nat, a3: nat)
    requires 0 <= n < 0x8000_0000 && h2 == n / 0x100 / 0x100 && a2 == h2 % 0x100 && a3 == h2 / 0x100 % 0x100
    ensures a2 + 0x100 * a3 == n / 0x1_0000 && a2 == n / 0x1_0000 % 0x100
  {
  }

  /** The driver's limits let through exactly the numbers that fit. */
  lemma LimitsOf(n: int)
    requires 0 <= n < 0x8000_0000
    ensures LongOf(n).Above20Bits() <==> n > 0xF_FFFF
    ensures LongOf(n).Above22Bits() <==> n > 0x3F_FFFF
    ensures !LongOf(n).Negative()
  {
    UpperBytes(n);
    SmallByte(LongOf(n).b2);
    SmallByte(LongOf(n).b3);
    TopBit(LongOf(n).b3);
  }

  /** Three bytes carry a number of 22 bits. */
  lemma ThreeBytes(n: int)
    requires 0 <= n <= 0x3F_FFFF
    ensures ValueOf(BytesOf(LongOf(n), 3)) == LongOf(n) == AtMost22Bits(LongOf(n)) == SignedAtMost22Bits(LongOf(n))
    ensures n <= 0xF_FFFF ==> AtMost20Bits(LongOf(n)) == LongOf(n)
  {
    LimitsOf(n);
  }

  lemma AllBits()
    ensures NatOf(0) == 0 && NatOf(0xFF) == 255 && (0xFF as bv8) & 0x80 != 0 && (0 as bv8) & 0x80 == 0
  {
  }

  lemma OrAll(b: Byte)
    ensures b | 0xFF == 0xFF
  {
  }

  /** With bit 21 set, sign extension subtracts 2^22. */
  lemma Extended(v: Long)
    requires v.b3 == 0 && NatOf(v.b2) < 64
    ensures IntOf(SignExtended(v)) == if NatOf(v.b2) >= 32 then NatOfLong(v) - 0x40_0000 else NatOfLong(v)
  {
    SmallByte(v.b2);
    AllBits();
    OrAll(v.b3);
  }

  /** The number a position is read back as: the 22 bits in two's complement. */
  lemma SignedNumber(n: int)
    requires 0 <= n <= 0x3F_FFFF
    ensures IntOf(SignExtended(LongOf(n))) == if n >= 0x20_0000 then n - 0x40_0000 else n
  {
    UpperBytes(n);
    Position(n, NatOf(LongOf(n).b2), NatOf(LongOf(n).b3));
    SmallByte(LongOf(n).b3);
    Extended(LongOf(n));
    NatOfLongOf(n);
    NoOverflow(n);
  }

  lemma Position(n: int, a2: nat, a3: nat)
    requires 0 <= n <= 0x3F_FFFF && a2 + 0x100 * a3 == n / 0x1_0000
    ensures a3 == 0 && a2 < 64 && (a2 >= 32 <==> n >= 0x20_0000)
  {
  }

  lemma NoOverflow(n: int)
    requires 0 <= n < 0x8000_0000
    ensures n / 0x100 / 0x100 / 0x100 / 0x100 == 0
  {
  }

  lemma NatOfSmall(n: int)
    requires 0 <= n < 0x8000_0000
    ensures NatOfLong(LongOf(n)) == n
  {
    NatOfLongOf(n);
    NoOverflow(n);
  }

  function Smaller(n: int, limit: int): int {
    if n > limit then limit else n
  }

  lemma LimitNumbers()
    ensures NatOfLong(MAX_20) == 0xF_FFFF && NatOfLong(MAX_22) == 0x3F_FFFF
    ensures !MAX_22.Negative()
  {
    assert NatOf(0xFF) == 255 && NatOf(0x3F) == 63 && NatOf(0x0F) == 15 && NatOf(0) == 0;
  }

  lemma AboveLimits(v: Long)
    ensures v.Above20Bits() <==> NatOfLong(v) > 0xF_FFFF
    ensures v.Above22Bits() <==> NatOfLong(v) > 0x3F_FFFF
  {
    SmallByte(v.b2);
    SmallByte(v.b3);
    BelowAByte(v.b0);
    BelowAByte(v.b1);
    AboveNumbers(NatOf(v.b0), NatOf(v.b1), NatOf(v.b2), NatOf(v.b3), NatOfLong(v));
  }

  lemma BelowAByte(b: Byte)
    ensures NatOf(b) < 256
  {
  }

  lemma AboveNumbers(b0: nat, b1: nat, b2: nat, b3: nat, x: nat)
    requires b0 < 256 && b1 < 256 && x == b0 + 0x100 * b1 + 0x1_0000 * b2 + 0x100_0000 * b3
    ensures b3 > 0 || b2 >= 16 <==> x > 0xF_FFFF
    ensures b3 > 0 || b2 >= 64 <==> x > 0x3F_FFFF
  {
  }

  /** What the driver makes of an argument that is too large: the largest number that fits. */
  lemma Limited(v: Long)
    ensures NatOfLong(AtMost20Bits(v)) == Smaller(NatOfLong(v), 0xF_FFFF)
    ensures NatOfLong(AtMost22Bits(v)) == Smaller(NatOfLong(v), 0x3F_FFFF)
  {
    AboveLimits(v);
    LimitNumbers();
    if v.Above20Bits() { assert AtMost20Bits(v) == MAX_20; } else { assert AtMost20Bits(v) == v; }
    if v.Above22Bits() { assert AtMost22Bits(v) == MAX_22; } else { assert AtMost22Bits(v) == v; }
  }

  /** A negative position stays what it is. */
  lemma PositionLimited(v: Long)
    ensures IntOf(SignedAtMost22Bits(v)) == Smaller(IntOf(v), 0x3F_FFFF)
  {
    if v.Negative() {
      assert SignedAtMost22Bits(v) == v;
      NegativeBelow(v);
    } else {
      Limited(v);
      LimitNumbers();
      assert !AtMost22Bits(v).Negative();
    }
  }

  lemma NegativeBelow(v: Long)
    requires v.Negative()
    ensures IntOf(v) < 0
  {
    BelowAByte(v.b0);
    BelowAByte(v.b1);
    BelowAByte(v.b2);
    BelowAByte(v.b3);
  }
}
