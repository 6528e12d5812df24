/** The 32-bit longs of the driver, held as the four bytes they consist of: the driver takes
    them apart and puts them together byte by byte. */
module L6470Long {
  import opened Bytes
  import opened L6470Board

  /** b0 is the least significant byte. */
  datatype Long = Long(b0: Byte, b1: Byte, b2: Byte, b3: Byte) {

    function And(m: Long): Long {
      Long(b0 & m.b0, b1 & m.b1, b2 & m.b2, b3 & m.b3)
    }

    function Or(m: Long): Long {
      Long(b0 | m.b0, b1 | m.b1, b2 | m.b2, b3 | m.b3)
    }

    function Not(): Long {
      Long(!b0, !b1, !b2, !b3)
    }

    function Byte(k: nat): Byte {
      if k == 0 then b0 else if k == 1 then b1 else if k == 2 then b2 else b3
    }

    function With(k: nat, byte: Byte): Long {
      if k == 0 then this.(b0 := byte) else if k == 1 then this.(b1 := byte)
      else if k == 2 then this.(b2 := byte) else this.(b3 := byte)
    }

    predicate Negative() {
      b3 & 0x80 != 0
    }

    /** As an unsigned number: greater than 0x3F_FFFF, greater than 0xF_FFFF. */
    predicate Above22Bits() {
      b3 != 0 || b2 > 0x3F
    }

    predicate Above20Bits() {
      b3 != 0 || b2 > 0x0F
    }
  }

  const ZERO := Long(0, 0, 0, 0)
  const MAX_22 := Long(0xFF, 0xFF, 0x3F, 0)
  const MAX_20 := Long(0xFF, 0xFF, 0x0F, 0)

  /** The low n bytes of a long, most significant first. */
  function BytesOf(v: Long, n: nat): (bytes: seq<Byte>)
    requires n <= 3
    ensures |bytes| == n
  {
    match n
    case 0 => []
    case 1 => [v.b0]
    case 2 => [v.b1, v.b0]
    case _ => [v.b2, v.b1, v.b0]
  }

  /** A long put together from at most three bytes, the rest zero. */
  function ValueOf(bytes: seq<Byte>): Long
    requires |bytes| <= 3
  {
    match |bytes|
    case 0 => ZERO
    case 1 => Long(bytes[0], 0, 0, 0)
    case 2 => Long(bytes[1], bytes[0], 0, 0)
    case _ => Long(bytes[2], bytes[1], bytes[0], 0)
  }

  // ---- limits

  function AtMost20Bits(v: Long): Long {
    if v.Above20Bits() then MAX_20 else v
  }

  function AtMost22Bits(v: Long): Long {
    if v.Above22Bits() then MAX_22 else v
  }

  function SignedAtMost22Bits(v: Long): Long {
    if v.Negative() then v else AtMost22Bits(v)
  }

  /** The three argument bytes carry a clamped value without loss. */
  lemma ClampedArguments(v: Long)
    ensures Kept(BytesOf(AtMost20Bits(v), 3), 20) == BytesOf(AtMost20Bits(v), 3)
    ensures Kept(BytesOf(AtMost22Bits(v), 3), 22) == BytesOf(AtMost22Bits(v), 3)
    ensures ValueOf(BytesOf(AtMost22Bits(v), 3)) == AtMost22Bits(v)
    ensures ValueOf(BytesOf(AtMost20Bits(v), 3)) == AtMost20Bits(v)
  {
  }

  // ---- positions

  /** getPos and getMark: if bit 21 is set, so are all bits above it. */
  function SignExtended(v: Long): Long {
    if v.b2 & 0x20 != 0 then v.(b2 := v.b2 | 0xC0, b3 := v.b3 | 0xFF) else v
  }

  /** The longs from -2^21 up to 2^21 - 1: bit 21 equals all bits above it. */
  predicate IsPosition(v: Long) {
    (v.b3 == 0 && v.b2 & 0xE0 == 0) || (v.b3 == 0xFF && v.b2 & 0xE0 == 0xE0)
  }

  /** A position written to a 22-bit register and read back with its sign is unchanged exactly
      when it is in the range of the register. */
  lemma PositionRoundTrip(v: Long)
    ensures SignExtended(ValueOf(Kept(BytesOf(v, 3), 22))) == v <==> IsPosition(v)
  {
  }

}
