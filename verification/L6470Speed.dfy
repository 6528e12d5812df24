/** The conversions between steps per second and register values, over exact real numbers. */
module L6470Speed {
  const ACC_SCALE: real := 0.137438
  const MAX_SCALE: real := 0.065536
  const MIN_STEP: real := 0.238
  const INT_SCALE: real := 4.1943
  const SPD_SCALE: real := 67.106

  /** A conversion to an integer drops the fraction, towards zero, and is defined for what then fits. */
  predicate FitsLong(x: real) {
    -2147483649.0 < x < 2147483648.0
  }

  predicate FitsUnsigned(x: real) {
    -1.0 < x < 4294967296.0
  }

  /** Rounding up adds one to an int unless it is exact. */
  predicate FitsRoundedUp(x: real) {
    -2147483649.0 < x <= 2147483647.0
  }

  function Truncated(x: real): int {
    if x >= 0.0 then x.Floor else -((-x).Floor)
  }

  /** A register value of limited width; a negative number turned unsigned is beyond any limit. */
  function Clipped(n: int, limit: nat): nat {
    if n < 0 || n > limit then limit else n
  }

  function Register(x: real, limit: nat): nat
    requires FitsLong(x)
  {
    Clipped(Truncated(x), limit)
  }

  /** The rounding up used for the maximum speed. */
  function RoundedUp(x: real): int
    requires FitsRoundedUp(x)
  {
    if x == Truncated(x) as real then Truncated(x) else Truncated(x) + 1
  }

  function AccCalc(x: real): nat
    requires FitsLong(x * ACC_SCALE)
  {
    Register(x * ACC_SCALE, 0xFFF)
  }

  function AccParse(n: nat): real {
    (n % 0x1000) as real / ACC_SCALE
  }

  function MaxSpdCalc(x: real): nat
    requires FitsRoundedUp(x * MAX_SCALE)
  {
    Clipped(RoundedUp(x * MAX_SCALE), 0x3FF)
  }

  function MaxSpdParse(n: nat): real {
    (n % 0x400) as real / MAX_SCALE
  }

  function MinSpdCalc(x: real): (n: nat)
    requires FitsLong(x / MIN_STEP)
    ensures n <= 0xFFF
  {
    Register(x / MIN_STEP, 0xFFF)
  }

  function MinSpdParse(n: nat): real {
    (n % 0x1000) as real * MIN_STEP
  }

  function FSCalc(x: real): nat
    requires FitsLong(x * MAX_SCALE - 0.5)
  {
    Register(x * MAX_SCALE - 0.5, 0x3FF)
  }

  function FSParse(n: nat): real {
    ((n % 0x400) as real + 0.5) / MAX_SCALE
  }

  function IntSpdCalc(x: real): nat
    requires FitsLong(x * INT_SCALE)
  {
    Register(x * INT_SCALE, 0x3FFF)
  }

  function IntSpdParse(n: nat): real {
    (n % 0x4000) as real / INT_SCALE
  }

  /** The one conversion that goes straight to unsigned. */
  function SpdCalc(x: real): (n: nat)
    requires FitsUnsigned(x * SPD_SCALE)
    ensures n <= 0xF_FFFF
  {
    Clipped(Truncated(x * SPD_SCALE), 0xF_FFFF)
  }

  function SpdParse(n: nat): real {
    (n % 0x10_0000) as real / SPD_SCALE
  }

  /** What register values stand for, in steps per second, and per second squared. */
  lemma ParsedAre(n: nat)
    ensures AccParse(n) * 0.137438 == (n % 4096) as real
    ensures MaxSpdParse(n) * 0.065536 == (n % 1024) as real
    ensures MinSpdParse(n) == (n % 4096) as real * 0.238
    ensures FSParse(n) * 0.065536 - 0.5 == (n % 1024) as real
    ensures IntSpdParse(n) * 4.1943 == (n % 16384) as real
    ensures SpdParse(n) * 67.106 == (n % 1048576) as real
  {
  }

  /** And what speeds beyond those are written as: the largest value of the register. */
  lemma BeyondTheLargest(x: real)
    ensures FitsLong(x * ACC_SCALE) && x * 0.137438 >= 4095.0 ==> AccCalc(x) == 4095
    ensures FitsRoundedUp(x * MAX_SCALE) && x * 0.065536 >= 1023.0 ==> MaxSpdCalc(x) == 1023
    ensures FitsLong(x / MIN_STEP) && x >= 4095.0 * 0.238 ==> MinSpdCalc(x) == 4095
    ensures FitsLong(x * MAX_SCALE - 0.5) && x * 0.065536 - 0.5 >= 1023.0 ==> FSCalc(x) == 1023
    ensures FitsLong(x * INT_SCALE) && x * 4.1943 >= 16383.0 ==> IntSpdCalc(x) == 16383
    ensures FitsUnsigned(x * SPD_SCALE) && x * 67.106 >= 1048575.0 ==> SpdCalc(x) == 1048575
  {
  }

  /** A number keeps its order against all larger ones exactly if it is above -1: one that is not reads as
      the largest value. */
  lemma OrderedIff(x: real, limit: nat)
    requires limit > 0 && FitsLong(x)
    ensures (forall y: real :: x <= y && FitsLong(y) ==> Register(x, limit) <= Register(y, limit)) <==> x > -1.0
  {
    if x <= -1.0 {
      assert Register(x, limit) == limit && Register(0.0, limit) == 0;
    }
  }

  /** The same for the conversion that rounds up: numbers between -1 and 0 read as one, those between -2 and
      -1 as zero, and other negative ones as the largest value. */
  lemma RoundedUpOrderedIff(x: real, limit: nat)
    requires limit > 0 && FitsRoundedUp(x)
    ensures (forall y: real :: x <= y && FitsRoundedUp(y) ==> Clipped(RoundedUp(x), limit) <= Clipped(RoundedUp(y), limit))
       <==> x >= 0.0 || -2.0 < x < -1.0
  {
    if x <= -2.0 || -1.0 <= x < 0.0 {
      assert Clipped(RoundedUp(x), limit) >= 1 && Clipped(RoundedUp(0.0), limit) == 0;
    }
  }

  lemma AccBack(n: nat)
    requires n <= 0xFFF
    ensures AccCalc(AccParse(n)) == n
  {
  }

  lemma MinSpdBack(n: nat)
    requires n <= 0xFFF
    ensures MinSpdCalc(MinSpdParse(n)) == n
  {
  }

  lemma MaxSpdBack(n: nat)
    requires n <= 0x3FF
    ensures MaxSpdCalc(MaxSpdParse(n)) == n
  {
  }

  lemma FSBack(n: nat)
    requires n <= 0x3FF
    ensures FSCalc(FSParse(n)) == n
  {
  }

  lemma IntSpdBack(n: nat)
    requires n <= 0x3FFF
    ensures IntSpdCalc(IntSpdParse(n)) == n
  {
  }

  lemma SpdBack(n: nat)
    requires n <= 0xF_FFFF
    ensures SpdCalc(SpdParse(n)) == n
  {
  }

  /** Every register value survives being read as a speed and written back. */
  lemma ParsedAndBack(n: nat)
    ensures n <= 0xFFF ==> AccCalc(AccParse(n)) == n && MinSpdCalc(MinSpdParse(n)) == n
    ensures n <= 0x3FF ==> MaxSpdCalc(MaxSpdParse(n)) == n && FSCalc(FSParse(n)) == n
    ensures n <= 0x3FFF ==> IntSpdCalc(IntSpdParse(n)) == n
    ensures n <= 0xF_FFFF ==> SpdCalc(SpdParse(n)) == n
  {
    if n <= 0xFFF { AccBack(n); MinSpdBack(n); }
    if n <= 0x3FF { MaxSpdBack(n); FSBack(n); }
    if n <= 0x3FFF { IntSpdBack(n); }
    if n <= 0xF_FFFF { SpdBack(n); }
  }

  /** A speed in range is written as the largest register value that does not read back as more. */
  lemma SpdRoundsDown(x: real)
    requires 0.0 <= x * SPD_SCALE < 0x10_0000 as real
    ensures forall n: nat :: n <= 0xF_FFFF ==> (n <= SpdCalc(x) <==> SpdParse(n) <= x)
  {
  }

  /** The maximum speed in range is written as the smallest register value that does not read back as less. */
  lemma MaxSpdRoundsUp(x: real)
    requires 0.0 <= x * MAX_SCALE <= 0x3FF as real
    ensures forall n: nat :: n <= 0x3FF ==> (MaxSpdCalc(x) <= n <==> x <= MaxSpdParse(n))
  {
  }
}
