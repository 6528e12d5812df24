/** What a register of so many bits keeps of a number: the number modulo its capacity. */
module L6470Kept {
  import opened Bytes
  import opened L6470Board
  import opened L6470Long
  import opened L6470Number

  /** How many numbers so many bits can tell apart. */
  function Capacity(bits: nat): (n: nat)
    ensures n > 0
  {
    if bits == 0 then 1 else 2 * Capacity(bits - 1)
  }

  /** The capacities of the register lengths. */
  lemma Capacities()
    ensures Capacity(4) == 0x10 && Capacity(5) == 0x20 && Capacity(7) == 0x80 && Capacity(8) == 0x100
    ensures Capacity(9) == 0x200 && Capacity(10) == 0x400 && Capacity(12) == 0x1000 && Capacity(13) == 0x2000
    ensures Capacity(14) == 0x4000 && Capacity(16) == 0x1_0000 && Capacity(20) == 0x10_0000 && Capacity(22) == 0x40_0000
  {
    assert Capacity(4) == 0x10;
    assert Capacity(8) == 0x100;
    assert Capacity(12) == 0x1000;
    assert Capacity(16) == 0x1_0000;
    assert Capacity(20) == 0x10_0000;
  }

  /** The bits of a byte with a mask are those of both. */
  lemma MaskedBits(b: Byte, m: Byte)
    ensures (b & m) & 0x01 != 0 <==> b & 0x01 != 0 && m & 0x01 != 0
    ensures (b & m) & 0x02 != 0 <==> b & 0x02 != 0 && m & 0x02 != 0
    ensures (b & m) & 0x04 != 0 <==> b & 0x04 != 0 && m & 0x04 != 0
    ensures (b & m) & 0x08 != 0 <==> b & 0x08 != 0 && m & 0x08 != 0
    ensures (b & m) & 0x10 != 0 <==> b & 0x10 != 0 && m & 0x10 != 0
    ensures (b & m) & 0x20 != 0 <==> b & 0x20 != 0 && m & 0x20 != 0
    ensures (b & m) & 0x40 != 0 <==> b & 0x40 != 0 && m & 0x40 != 0
    ensures (b & m) & 0x80 != 0 <==> b & 0x80 != 0 && m & 0x80 != 0
  {
  }

  lemma Split1(b0: bool, b1: bool, b2: bool, b3: bool, b4: bool, b5: bool, b6: bool, b7: bool)
    ensures Sum(b0, false, false, false, false, false, false, false) < 2
    ensures Sum(b0, b1, b2, b3, b4, b5, b6, b7)
         == Sum(b0, false, false, false, false, false, false, false) + 2 * Sum(b1, b2, b3, b4, b5, b6, b7, false)
  {
  }

  lemma Split2(b0: bool, b1: bool, b2: bool, b3: bool, b4: bool, b5: bool, b6: bool, b7: bool)
    ensures Sum(b0, b1, false, false, false, false, false, false) < 4
    ensures Sum(b0, b1, b2, b3, b4, b5, b6, b7)
         == Sum(b0, b1, false, false, false, false, false, false) + 4 * Sum(b2, b3, b4, b5, b6, b7, false, false)
  {
  }

  lemma Split4(b0: bool, b1: bool, b2: bool, b3: bool, b4: bool, b5: bool, b6: bool, b7: bool)
    ensures Sum(b0, b1, b2, b3, false, false, false, false) < 16
    ensures Sum(b0, b1, b2, b3, b4, b5, b6, b7)
         == Sum(b0, b1, b2, b3, false, false, false, false) + 16 * Sum(b4, b5, b6, b7, false, false, false, false)
  {
  }

  lemma Split5(b0: bool, b1: bool, b2: bool, b3: bool, b4: bool, b5: bool, b6: bool, b7: bool)
    ensures Sum(b0, b1, b2, b3, b4, false, false, false) < 32
    ensures Sum(b0, b1, b2, b3, b4, b5, b6, b7)
         == Sum(b0, b1, b2, b3, b4, false, false, false) + 32 * Sum(b5, b6, b7, false, false, false, false, false)
  {
  }

  lemma Split6(b0: bool, b1: bool, b2: bool, b3: bool, b4: bool, b5: bool, b6: bool, b7: bool)
    ensures Sum(b0, b1, b2, b3, b4, b5, false, false) < 64
    ensures Sum(b0, b1, b2, b3, b4, b5, b6, b7)
         == Sum(b0, b1, b2, b3, b4, b5, false, false) + 64 * Sum(b6, b7, false, false, false, false, false, false)
  {
  }

  lemma Split7(b0: bool, b1: bool, b2: bool, b3: bool, b4: bool, b5: bool, b6: bool, b7: bool)
    ensures Sum(b0, b1, b2, b3, b4, b5, b6, false) < 128
    ensures Sum(b0, b1, b2, b3, b4, b5, b6, b7)
         == Sum(b0, b1, b2, b3, b4, b5, b6, false) + 128 * Sum(b7, false, false, false, false, false, false, false)
  {
  }

  lemma Masked1(b: Byte)
    ensures NatOf(b & 0x01) == NatOf(b) % 2
  {
    MaskedBits(b, 0x01);
    Split1(b & 0x01 != 0, b & 0x02 != 0, b & 0x04 != 0, b & 0x08 != 0, b & 0x10 != 0, b & 0x20 != 0, b & 0x40 != 0, b & 0x80 != 0);
  }

  lemma Masked2(b: Byte)
    ensures NatOf(b & 0x03) == NatOf(b) % 4
  {
    MaskedBits(b, 0x03);
    Split2(b & 0x01 != 0, b & 0x02 != 0, b & 0x04 != 0, b & 0x08 != 0, b & 0x10 != 0, b & 0x20 != 0, b & 0x40 != 0, b & 0x80 != 0);
  }

  lemma Masked4(b: Byte)
    ensures NatOf(b & 0x0F) == NatOf(b) % 16
  {
    MaskedBits(b, 0x0F);
    Split4(b & 0x01 != 0, b & 0x02 != 0, b & 0x04 != 0, b & 0x08 != 0, b & 0x10 != 0, b & 0x20 != 0, b & 0x40 != 0, b & 0x80 != 0);
  }

  lemma Masked5(b: Byte)
    ensures NatOf(b & 0x1F) == NatOf(b) % 32
  {
    MaskedBits(b, 0x1F);
    Split5(b & 0x01 != 0, b & 0x02 != 0, b & 0x04 != 0, b & 0x08 != 0, b & 0x10 != 0, b & 0x20 != 0, b & 0x40 != 0, b & 0x80 != 0);
  }

  lemma Masked6(b: Byte)
    ensures NatOf(b & 0x3F) == NatOf(b) % 64
  {
    MaskedBits(b, 0x3F);
    Split6(b & 0x01 != 0, b & 0x02 != 0, b & 0x04 != 0, b & 0x08 != 0, b & 0x10 != 0, b & 0x20 != 0, b & 0x40 != 0, b & 0x80 != 0);
  }

  lemma Masked7(b: Byte)
    ensures NatOf(b & 0x7F) == NatOf(b) % 128
  {
    MaskedBits(b, 0x7F);
    Split7(b & 0x01 != 0, b & 0x02 != 0, b & 0x04 != 0, b & 0x08 != 0, b & 0x10 != 0, b & 0x20 != 0, b & 0x40 != 0, b & 0x80 != 0);
  }

  /** The masks of the bits a register has in its first byte, and their capacities. */
  predicate MaskAndCapacity(mask: Byte, p: nat) {
    || (mask == 0x01 && p == 2) || (mask == 0x03 && p == 4) || (mask == 0x0F && p == 16) || (mask == 0x1F && p == 32)
    || (mask == 0x3F && p == 64) || (mask == 0x7F && p == 128) || (mask == 0xFF && p == 256)
  }

  lemma MaskedByte(b: Byte, mask: Byte, p: nat)
    requires MaskAndCapacity(mask, p)
    ensures NatOf(b & mask) == NatOf(b) % p
  {
    if p == 2 { Masked1(b); }
    else if p == 4 { Masked2(b); }
    else if p == 16 { Masked4(b); }
    else if p == 32 { Masked5(b); }
    else if p == 64 { Masked6(b); }
    else if p == 128 { Masked7(b); }
    else { WholeByte(b); }
  }

  lemma WholeByte(b: Byte)
    ensures NatOf(b & 0xFF) == NatOf(b) % 256
  {
    assert b & 0xFF == b;
  }

  /** A number below w, then a byte, then the rest, cut off in the byte. */
  lemma CutInTheByte(low: nat, w: nat, top: nat, p: nat, q: nat, rest: nat, x: nat)
    requires low < w && p * q == 0x100 && x == low + w * top + w * 0x100 * rest
    ensures x % (w * p) == low + w * (top % p)
  {
    Parts(top, p);
    Regrouped(low, w, top % p, p, top / p, q, rest);
    Fits(low, w, top % p, p);
    Remainder(x, low + w * (top % p), w * p, top / p + q * rest);
  }

  lemma Regrouped(low: nat, w: nat, t: nat, p: nat, k: nat, q: nat, rest: nat)
    requires p * q == 0x100
    ensures low + w * (t + p * k) + w * 0x100 * rest == (low + w * t) + (w * p) * (k + q * rest)
  {
    calc {
      w * (t + p * k) + w * 0x100 * rest;
      w * t + w * (p * k) + w * (p * q) * rest;
      w * t + (w * p) * k + (w * p) * (q * rest);
      w * t + (w * p) * (k + q * rest);
    }
  }

  lemma Fits(low: nat, w: nat, t: nat, p: nat)
    requires low < w && t < p
    ensures low + w * t < w * p
  {
    Apart(w, p, t);
    AtLeast(w, p - t);
  }

  lemma Remainder(x: int, low: nat, size: nat, high: int)
    requires low < size && x == low + size * high
    ensures x % size == low
  {
    Parts(x, size);
    OnePart(size, x / size, x % size, high, low);
  }

  lemma Parts(x: int, size: nat)
    requires size > 0
    ensures x == size * (x / size) + x % size && 0 <= x % size < size
  {
  }

  lemma OnePart(size: int, q: int, r: int, high: int, low: int)
    requires 0 <= r < size && 0 <= low < size && size * q + r == size * high + low
    ensures r == low
  {
    Apart(size, q, high);
    if q > high {
      AtLeast(size, q - high);
    } else if q < high {
      Apart(size, high, q);
      AtLeast(size, high - q);
    }
  }

  lemma Apart(size: int, a: int, b: int)
    ensures size * (a - b) == size * a - size * b
  {
  }

  lemma AtLeast(size: int, n: int)
    requires size > 0 && n >= 1
    ensures size * n >= size
  {
  }

  /** The factor by which a byte exceeds the capacity of its lower part. */
  lemma Complement(p: nat) returns (q: nat)
    requires p in {2, 4, 16, 32, 64, 128, 256}
    ensures p * q == 0x100
  {
    q := if p == 2 then 128 else if p == 4 then 64 else if p == 16 then 16 else if p == 32 then 8
      else if p == 64 then 4 else if p == 128 then 2 else 1;
  }

  lemma LowOfOne(b0: nat, b1: nat, b2: nat, b3: nat, p: nat, t: nat, x: nat, kept: nat)
    requires p in {16, 32, 128, 256} && t == b0 % p
    requires x == b0 + 0x100 * b1 + 0x1_0000 * b2 + 0x100_0000 * b3 && kept == t
    ensures kept == x % p
  {
    var q := Complement(p);
    CutInTheByte(0, 1, b0, p, q, b1 + 0x100 * b2 + 0x1_0000 * b3, x);
  }

  lemma LowOfTwo(b0: nat, b1: nat, b2: nat, b3: nat, p: nat, size: nat, t: nat, x: nat, kept: nat)
    requires b0 < 256 && p in {2, 4, 16, 32, 64, 256} && size == 0x100 * p && t == b1 % p
    requires x == b0 + 0x100 * b1 + 0x1_0000 * b2 + 0x100_0000 * b3 && kept == b0 + 0x100 * t
    ensures kept == x % size
  {
    var q := Complement(p);
    CutInTheByte(b0, 0x100, b1, p, q, b2 + 0x100 * b3, x);
  }

  lemma LowOfThree(b0: nat, b1: nat, b2: nat, b3: nat, p: nat, size: nat, t: nat, x: nat, kept: nat)
    requires b0 < 256 && b1 < 256 && p in {16, 64} && size == 0x1_0000 * p && t == b2 % p
    requires x == b0 + 0x100 * b1 + 0x1_0000 * b2 + 0x100_0000 * b3 && kept == b0 + 0x100 * b1 + 0x1_0000 * t
    ensures kept == x % size
  {
    var q := Complement(p);
    CutInTheByte(b0 + 0x100 * b1, 0x1_0000, b2, p, q, b3, x);
  }

  lemma ByteBounds(v: Long)
    ensures NatOf(v.b0) < 256 && NatOf(v.b1) < 256 && NatOf(v.b2) < 256 && NatOf(v.b3) < 256
  {
  }

  lemma KeptOne(v: Long, bits: nat, mask: Byte, kept: Long)
    requires mask == TopMask(bits) && kept == ValueOf(Kept(BytesOf(v, 1), bits))
    ensures kept == Long(v.b0 & mask, 0, 0, 0)
  {
  }

  lemma KeptTwo(v: Long, bits: nat, mask: Byte, kept: Long)
    requires mask == TopMask(bits) && kept == ValueOf(Kept(BytesOf(v, 2), bits))
    ensures kept == Long(v.b0, v.b1 & mask, 0, 0)
  {
  }

  lemma KeptThree(v: Long, bits: nat, mask: Byte, kept: Long)
    requires mask == TopMask(bits) && kept == ValueOf(Kept(BytesOf(v, 3), bits))
    ensures kept == Long(v.b0, v.b1, v.b2 & mask, 0)
  {
  }

  lemma KeptLowOfOne(v: Long, mask: Byte, p: nat, size: nat, kept: Long)
    requires kept == Long(v.b0 & mask, 0, 0, 0)
    requires MaskAndCapacity(mask, p) && p in {16, 32, 128, 256} && size == p
    ensures NatOfLong(kept) == NatOfLong(v) % size
  {
    AllBits();
    MaskedByte(v.b0, mask, p);
    LowOfOne(NatOf(v.b0), NatOf(v.b1), NatOf(v.b2), NatOf(v.b3), p,
             NatOf(v.b0 & mask), NatOfLong(v), NatOfLong(kept));
  }

  lemma KeptLowOfTwo(v: Long, mask: Byte, p: nat, size: nat, kept: Long)
    requires kept == Long(v.b0, v.b1 & mask, 0, 0)
    requires MaskAndCapacity(mask, p) && p in {2, 4, 16, 32, 64, 256} && size == 0x100 * p
    ensures NatOfLong(kept) == NatOfLong(v) % size
  {
    AllBits();
    MaskedByte(v.b1, mask, p);
    ByteBounds(v);
    LowOfTwo(NatOf(v.b0), NatOf(v.b1), NatOf(v.b2), NatOf(v.b3), p, size,
             NatOf(v.b1 & mask), NatOfLong(v), NatOfLong(kept));
  }

  lemma KeptLowOfThree(v: Long, mask: Byte, p: nat, size: nat, kept: Long)
    requires kept == Long(v.b0, v.b1, v.b2 & mask, 0)
    requires MaskAndCapacity(mask, p) && p in {16, 64} && size == 0x1_0000 * p
    ensures NatOfLong(kept) == NatOfLong(v) % size
  {
    AllBits();
    MaskedByte(v.b2, mask, p);
    ByteBounds(v);
    LowOfThree(NatOf(v.b0), NatOf(v.b1), NatOf(v.b2), NatOf(v.b3), p, size,
               NatOf(v.b2 & mask), NatOfLong(v), NatOfLong(kept));
  }

  /** A register of so many bits takes n bytes, with p values of the first; size is the number of its values. */
  predicate Shape(n: nat, p: nat, size: nat) {
    || (n == 1 && size == p && p in {16, 32, 128, 256})
    || (n == 2 && size == 0x100 * p && p in {2, 4, 16, 32, 64, 256})
    || (n == 3 && size == 0x1_0000 * p && p in {16, 64})
  }

  lemma KeptShaped(v: Long, bits: nat, n: nat, mask: Byte, p: nat, size: nat, kept: Long)
    requires Shape(n, p, size) && MaskAndCapacity(mask, p)
    requires mask == TopMask(bits) && kept == ValueOf(Kept(BytesOf(v, n), bits))
    ensures NatOfLong(kept) == NatOfLong(v) % size
  {
    match n
    case 1 => KeptOne(v, bits, mask, kept); KeptLowOfOne(v, mask, p, size, kept);
    case 2 => KeptTwo(v, bits, mask, kept); KeptLowOfTwo(v, mask, p, size, kept);
    case _ => KeptThree(v, bits, mask, kept); KeptLowOfThree(v, mask, p, size, kept);
  }

  lemma ShapeOf(bits: nat) returns (p: nat)
    requires bits in {4, 5, 7, 8, 9, 10, 12, 13, 14, 16, 20, 22}
    ensures Shape(ByteLength(bits), p, Capacity(bits)) && MaskAndCapacity(TopMask(bits), p)
  {
    Capacities();
    p := Capacity(bits) / (if bits <= 8 then 1 else if bits <= 16 then 0x100 else 0x1_0000);
  }

  /** What a register keeps of a long is the number modulo the capacity of its bits. */
  lemma KeptLow(v: Long, bits: nat, kept: Long)
    requires bits in {4, 5, 7, 8, 9, 10, 12, 13, 14, 16, 20, 22}
    requires ByteLength(bits) <= 3 && kept == ValueOf(Kept(BytesOf(v, ByteLength(bits)), bits))
    ensures NatOfLong(kept) == NatOfLong(v) % Capacity(bits)
  {
    var p := ShapeOf(bits);
    KeptShaped(v, bits, ByteLength(bits), TopMask(bits), p, Capacity(bits), kept);
  }

  lemma SumTellsBits(a0: bool, a1: bool, a2: bool, a3: bool, a4: bool, a5: bool, a6: bool, a7: bool,
                     b0: bool, b1: bool, b2: bool, b3: bool, b4: bool, b5: bool, b6: bool, b7: bool)
    requires Sum(a0, a1, a2, a3, a4, a5, a6, a7) == Sum(b0, b1, b2, b3, b4, b5, b6, b7)
    ensures a0 == b0 && a1 == b1 && a2 == b2 && a3 == b3 && a4 == b4 && a5 == b5 && a6 == b6 && a7 == b7
  {
  }

  lemma BitsTellByte(a: Byte, b: Byte)
    requires a & 0x01 == b & 0x01 && a & 0x02 == b & 0x02 && a & 0x04 == b & 0x04 && a & 0x08 == b & 0x08
    requires a & 0x10 == b & 0x10 && a & 0x20 == b & 0x20 && a & 0x40 == b & 0x40 && a & 0x80 == b & 0x80
    ensures a == b
  {
  }

  /** Different bytes are different numbers. */
  lemma NumberTellsByte(a: Byte, b: Byte)
    requires NatOf(a) == NatOf(b)
    ensures a == b
  {
    SumTellsBits(a & 0x01 != 0, a & 0x02 != 0, a & 0x04 != 0, a & 0x08 != 0, a & 0x10 != 0, a & 0x20 != 0, a & 0x40 != 0, a & 0x80 != 0,
                 b & 0x01 != 0, b & 0x02 != 0, b & 0x04 != 0, b & 0x08 != 0, b & 0x10 != 0, b & 0x20 != 0, b & 0x40 != 0, b & 0x80 != 0);
    BitsTellByte(a, b);
  }

  lemma DigitsApart(a0: nat, a1: nat, a2: nat, a3: nat, b0: nat, b1: nat, b2: nat, b3: nat)
    requires a0 < 256 && a1 < 256 && a2 < 256 && b0 < 256 && b1 < 256 && b2 < 256
    requires a0 + 0x100 * a1 + 0x1_0000 * a2 + 0x100_0000 * a3 == b0 + 0x100 * b1 + 0x1_0000 * b2 + 0x100_0000 * b3
    ensures a0 == b0 && a1 == b1 && a2 == b2 && a3 == b3
  {
  }

  /** And so are different longs. */
  lemma NumberTellsLong(v: Long, w: Long)
    requires NatOfLong(v) == NatOfLong(w)
    ensures v == w
  {
    ByteBounds(v);
    ByteBounds(w);
    DigitsApart(NatOf(v.b0), NatOf(v.b1), NatOf(v.b2), NatOf(v.b3), NatOf(w.b0), NatOf(w.b1), NatOf(w.b2), NatOf(w.b3));
    NumberTellsByte(v.b0, w.b0);
    NumberTellsByte(v.b1, w.b1);
    NumberTellsByte(v.b2, w.b2);
    NumberTellsByte(v.b3, w.b3);
  }
}
