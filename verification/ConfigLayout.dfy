/** Where everything lives in the configuration image. */
module ConfigLayout {
  const SIZE: nat := 4096
  const SIGNATURE_SIZE: nat := 16
  const ENV_SIZE: nat := 16
  const OFFSET_STORES: nat := SIGNATURE_SIZE + ENV_SIZE

  const LAST: nat := 27

  type Store = x: nat | x < LAST

  const MOTORS: Store := 18

  function SizeOf(store: Store): nat {
    match store
    case 0 => 96 // network
    case 1 => 32 // DMX send
    case 2 => 64 // pixel
    case 3 => 64 // LTC
    case 4 => 32 // MIDI
    case 5 => 32 // LTC ETC
    case 6 => 480 // OSC server
    case 7 => 64 // TLC59711
    case 8 => 32 // USB Pro widget
    case 9 => 96 // RDM device
    case 10 => 48 // remote config
    case 11 => 32 // TCNet
    case 12 => 944 // OSC client
    case 13 => 48 // display
    case 14 => 64 // LTC display
    case 15 => 32 // monitor
    case 16 => 96 // SparkFun
    case 17 => 32 // slush
    case 18 => 1024 // motors
    case 19 => 32 // show
    case 20 => 32 // serial
    case 21 => 64 // RDM sensors
    case 22 => 96 // RDM subdevices
    case 23 => 32 // GPS
    case 24 => 32 // RGB panel
    case 25 => 320 // node
    case _ => 32 // PCA9685
  }

  /** The offset of store number n; n == LAST gives the end of the last store. */
  function Offset(n: nat): nat
    requires n <= LAST
  {
    if n == 0 then OFFSET_STORES else Offset(n - 1) + SizeOf(n - 1)
  }

  lemma OffsetNext(n: nat)
    requires n < LAST
    ensures Offset(n + 1) == Offset(n) + SizeOf(n)
  {
  }

  /** GetStoreOffset sums the sizes of the stores before this one. */
  method GetStoreOffset(store: Store) returns (offset: nat)
    ensures offset == Offset(store)
  {
    offset := OFFSET_STORES;
    for i := 0 to store
      invariant offset == Offset(i)
    {
      OffsetNext(i);
      offset := offset + SizeOf(i);
    }
  }

  /** What Flash writes: everything up to the end of the last store. */
  const USED: nat := 3984

  lemma UsedIsEndOfLastStore()
    ensures Offset(LAST) == USED <= SIZE
  {
    assert Offset(9) == 896 + 32;
    assert Offset(18) == 2288 + 32;
  }

  /** Where every store begins. */
  lemma FirstStores()
    ensures Offset(0) == 32 && Offset(1) == 128 && Offset(2) == 160 && Offset(3) == 224 && Offset(4) == 288
    ensures Offset(5) == 320 && Offset(6) == 352 && Offset(7) == 832 && Offset(8) == 896 && Offset(9) == 928
  {
    OffsetNext(0);
    OffsetNext(1);
    OffsetNext(2);
    OffsetNext(3);
    OffsetNext(4);
    OffsetNext(5);
    OffsetNext(6);
    OffsetNext(7);
    OffsetNext(8);
  }

  lemma MiddleStores()
    ensures Offset(10) == 1024 && Offset(11) == 1072 && Offset(12) == 1104 && Offset(13) == 2048
    ensures Offset(14) == 2096 && Offset(15) == 2160 && Offset(16) == 2192 && Offset(17) == 2288 && Offset(18) == 2320
  {
    FirstStores();
    OffsetNext(9);
    OffsetNext(10);
    OffsetNext(11);
    OffsetNext(12);
    OffsetNext(13);
    OffsetNext(14);
    OffsetNext(15);
    OffsetNext(16);
    OffsetNext(17);
  }

  lemma LastStores()
    ensures Offset(19) == 3344 && Offset(20) == 3376 && Offset(21) == 3408 && Offset(22) == 3472
    ensures Offset(23) == 3568 && Offset(24) == 3600 && Offset(25) == 3632 && Offset(26) == 3952 && Offset(27) == 3984
  {
    MiddleStores();
    OffsetNext(18);
    OffsetNext(19);
    OffsetNext(20);
    OffsetNext(21);
    OffsetNext(22);
    OffsetNext(23);
    OffsetNext(24);
    OffsetNext(25);
    OffsetNext(26);
  }

  lemma {:induction false} OffsetsIncrease(m: nat, n: nat)
    requires m < n <= LAST
    ensures OFFSET_STORES <= Offset(m) && Offset(m) + SizeOf(m) <= Offset(n)
    decreases n
  {
    if m < n - 1 {
      OffsetsIncrease(m, n - 1);
    }
    StoresComeAfterEnv(m);
  }

  lemma {:induction false} StoresComeAfterEnv(n: nat)
    requires n <= LAST
    ensures OFFSET_STORES <= Offset(n)
  {
    if n > 0 {
      StoresComeAfterEnv(n - 1);
    }
  }

  /** Every store lies behind the environment and inside the written part of the image, and
      no two stores share a byte. */
  lemma StoresAreDisjoint(s: Store, t: Store)
    ensures OFFSET_STORES <= Offset(s) && Offset(s) + SizeOf(s) <= USED
    ensures s != t ==> Offset(s) + SizeOf(s) <= Offset(t) || Offset(t) + SizeOf(t) <= Offset(s)
  {
    UsedIsEndOfLastStore();
    OffsetsIncrease(s, LAST);
    OffsetsIncrease(t, LAST);
    if s < t { OffsetsIncrease(s, t); }
    if t < s { OffsetsIncrease(t, s); }
  }

  /** The record layout inside the motors store. */
  datatype Section = ModeParams | MotorParams | L6470Params

  const MOTOR_RECORDS: nat := 8

  // The packed sizes: set list first, then the fields of each section.
  function SectionLength(section: Section): nat {
    match section
    case ModeParams => 4 + 1 + 2 + 4 + 4 + 4 + 4 + 1 + 4 * 4
    case MotorParams => 4 + 5 * 4
    case L6470Params => 4 + 4 * 4 + 5
  }

  function SectionOffset(section: Section): nat {
    match section
    case ModeParams => 0
    case MotorParams => 64
    case L6470Params => 64 + 32
  }

  function RecordOffset(motor: nat, section: Section): nat {
    motor * (64 + 32 + 32) + SectionOffset(section)
  }

  /** Where each record begins and how long it is. */
  lemma RecordTable(motor: nat)
    ensures RecordOffset(motor, ModeParams) == 128 * motor && SectionLength(ModeParams) == 40
    ensures RecordOffset(motor, MotorParams) == 128 * motor + 64 && SectionLength(MotorParams) == 24
    ensures RecordOffset(motor, L6470Params) == 128 * motor + 96 && SectionLength(L6470Params) == 25
  {
  }

  /** The records of all motors fit the motors store and no two of them share a byte. */
  lemma RecordsAreDisjoint(m: nat, s: Section, n: nat, t: Section)
    requires m < MOTOR_RECORDS && n < MOTOR_RECORDS
    ensures RecordOffset(m, s) + SectionLength(s) <= SizeOf(MOTORS)
    ensures (m, s) != (n, t) ==>
      || RecordOffset(m, s) + SectionLength(s) <= RecordOffset(n, t)
      || RecordOffset(n, t) + SectionLength(t) <= RecordOffset(m, s)
  {
  }
}
