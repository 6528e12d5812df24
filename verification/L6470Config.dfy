/** The register fields the driver sets by reading, masking and writing back, and what holds of
    them through any sequence of such calls. */
module L6470Config {
  import opened Bytes
  import opened L6470Board
  import opened L6470Long
  import opened L6470Number
  import opened L6470Speed
  import opened AutoDriver

  // The fields of CONFIG, section 9.1.21.
  const OSC_SEL := Long(0x0F, 0, 0, 0)
  const SW_MODE := Long(0x10, 0, 0, 0)
  const EN_VSCOMP := Long(0x20, 0, 0, 0)
  const OC_SD := Long(0x80, 0, 0, 0)
  const POW_SR := Long(0, 0x03, 0, 0)
  const F_PWM_DEC := Long(0, 0x1C, 0, 0)
  const F_PWM_INT := Long(0, 0xE0, 0, 0)

  const CONFIG_FIELDS: seq<Long> := [OSC_SEL, SW_MODE, EN_VSCOMP, OC_SD, POW_SR, F_PWM_DEC, F_PWM_INT]

  // The fields of STEP_MODE and MIN_SPEED, sections 9.1.19 and 9.1.8.
  const STEP_SEL := Long(0x07, 0, 0, 0)
  const SYNC := Long(0xF0, 0, 0, 0)
  const LSPD_OPT := Long(0, 0x10, 0, 0)
  const MIN_SPEED_VALUE := Long(0xFF, 0x0F, 0, 0)

  /** Which bits the fields are: of CONFIG bits 0-3, 4, 5, 7, 8-9, 10-12 and 13-15, of STEP_MODE bits 0-2 and
      4-7, of MIN_SPEED bit 12 and bits 0-11. */
  lemma FieldTable()
    ensures [OSC_SEL, SW_MODE, EN_VSCOMP, OC_SD] == [Long(0x0F, 0, 0, 0), Long(0x10, 0, 0, 0), Long(0x20, 0, 0, 0), Long(0x80, 0, 0, 0)]
    ensures [POW_SR, F_PWM_DEC, F_PWM_INT] == [Long(0, 0x03, 0, 0), Long(0, 0x1C, 0, 0), Long(0, 0xE0, 0, 0)]
    ensures CONFIG_FIELDS == [OSC_SEL, SW_MODE, EN_VSCOMP, OC_SD] + [POW_SR, F_PWM_DEC, F_PWM_INT]
    ensures STEP_SEL == Long(0x07, 0, 0, 0) && SYNC == Long(0x80 | 0x70, 0, 0, 0)
    ensures LSPD_OPT == Long(0, 0x10, 0, 0) && MIN_SPEED_VALUE == Long(0xFF, 0x0F, 0, 0)
  {
  }

  /** A field replaced, all other bits kept. */
  function Put(w: Long, field: Long, value: Long): Long {
    w.And(field.Not()).Or(field.And(value))
  }

  predicate Apart(f: Long, g: Long) {
    f.b0 & g.b0 == 0 && f.b1 & g.b1 == 0 && f.b2 & g.b2 == 0 && f.b3 & g.b3 == 0
  }

  // ---- the fields as lenses

  /** What was put in a field is read back from it. */
  lemma PutGet(w: Long, field: Long, value: Long)
    ensures Put(w, field, value).And(field) == value.And(field)
  {
  }

  /** Fields apart from it read as before. */
  lemma PutOther(w: Long, field: Long, value: Long, other: Long)
    requires Apart(field, other)
    ensures Put(w, field, value).And(other) == w.And(other)
  {
  }

  lemma ConfigFieldsApart(i: nat, j: nat)
    requires i < j < |CONFIG_FIELDS|
    ensures Apart(CONFIG_FIELDS[i], CONFIG_FIELDS[j])
  {
  }

  lemma OtherFieldsApart()
    ensures Apart(STEP_SEL, SYNC) && Apart(LSPD_OPT, MIN_SPEED_VALUE)
    ensures SYNC.Or(STEP_SEL) == Long(0xF7, 0, 0, 0) && LSPD_OPT.Or(MIN_SPEED_VALUE) == Long(0xFF, 0x1F, 0, 0)
  {
  }

  /** One setter call: a field of the register and the value given for it. */
  datatype Write = Write(field: Long, value: Long)

  function After(w: Long, writes: seq<Write>): Long
    decreases |writes|
  {
    if writes == [] then w else After(Put(w, writes[0].field, writes[0].value), writes[1..])
  }

  /** The value last written to a field, or the word it was in before. */
  function LastWritten(w: Long, writes: seq<Write>, field: Long): Long
    decreases |writes|
  {
    if writes == [] then w
    else LastWritten(if writes[0].field == field then writes[0].value else w, writes[1..], field)
  }

  /** After any sequence of setter calls, in any order, each field reads as it was last set,
      or as it was before if no call has set it. */
  lemma {:induction false} FieldsAreIndependent(w: Long, last: Long, writes: seq<Write>, field: Long)
    requires forall x :: x in writes ==> x.field == field || Apart(x.field, field)
    requires w.And(field) == last.And(field)
    ensures After(w, writes).And(field) == LastWritten(last, writes, field).And(field)
    decreases |writes|
  {
    if writes != [] {
      var x := writes[0];
      assert x in writes;
      if x.field == field {
        PutGet(w, field, x.value);
      } else {
        PutOther(w, x.field, x.value, field);
      }
      FieldsAreIndependent(Put(w, x.field, x.value), if x.field == field then x.value else last, writes[1..], field);
    }
  }

  /** The same for the fields of CONFIG: they are pairwise apart, so the condition on the
      writes holds for any sequence of CONFIG setters. */
  lemma ConfigFieldsIndependent(w: Long, writes: seq<Write>, field: Long)
    requires field in CONFIG_FIELDS && forall x :: x in writes ==> x.field in CONFIG_FIELDS
    ensures After(w, writes).And(field) == LastWritten(w, writes, field).And(field)
  {
    forall x | x in writes ensures x.field == field || Apart(x.field, field) {
      var i :| 0 <= i < |CONFIG_FIELDS| && CONFIG_FIELDS[i] == x.field;
      var j :| 0 <= j < |CONFIG_FIELDS| && CONFIG_FIELDS[j] == field;
      if i < j { ConfigFieldsApart(i, j); }
      if j < i { ConfigFieldsApart(j, i); ApartSymmetric(field, x.field); }
    }
    FieldsAreIndependent(w, w, writes, field);
  }

  lemma ApartSymmetric(f: Long, g: Long)
    ensures Apart(f, g) == Apart(g, f)
  {
  }

  // ---- through the bus

  lemma KeptWord(v: Long)
    requires v.b2 == 0 && v.b3 == 0
    ensures ValueOf(Kept(BytesOf(v, 2), 16)) == v
    ensures v.b1 & 0x1F == v.b1 ==> ValueOf(Kept(BytesOf(v, 2), 13)) == v
  {
  }

  lemma KeptByte(v: Long)
    requires v.b1 == 0 && v.b2 == 0 && v.b3 == 0
    ensures ValueOf(Kept(BytesOf(v, 1), 8)) == v
  {
  }

  /** Every CONFIG setter: read, clear the field, or in the new bits, write. */
  method SetConfigField(d: AutoDriver, field: Long, value: Long)
    requires d.Framed() && field.b2 == 0 && field.b3 == 0
    modifies d.chain
    ensures d.Framed() && d.Register(CONFIG) == Put(old(d.Register(CONFIG)), field, value)
    ensures d.Performed(old(d.chain.boards), CONFIG, BytesOf(Put(old(d.Register(CONFIG)), field, value), 2))
  {
    var configVal := d.GetParam(CONFIG);
    configVal := configVal.And(field.Not());
    configVal := configVal.Or(field.And(value));
    KeptWord(configVal);
    d.SetParam(CONFIG, configVal);
  }

  method GetConfigField(d: AutoDriver, field: Long) returns (value: Long)
    requires d.Framed()
    modifies d.chain
    ensures d.chain.boards == old(d.chain.boards) && value == old(d.Register(CONFIG)).And(field)
  {
    var configVal := d.GetParam(CONFIG);
    value := configVal.And(field);
  }

  /** A two-byte value, a 13-bit value and a byte arrive whole in their registers. */
  method WriteConfig(d: AutoDriver, value: Long)
    requires d.Framed() && value.b2 == 0 && value.b3 == 0
    modifies d.chain
    ensures d.Framed() && d.Register(CONFIG) == value
    ensures d.Performed(old(d.chain.boards), CONFIG, BytesOf(value, 2))
  {
    KeptWord(value);
    d.SetParam(CONFIG, value);
  }

  method WriteMinSpeed(d: AutoDriver, value: Long)
    requires d.Framed() && Has13Bits(value)
    modifies d.chain
    ensures d.Framed() && d.Register(MIN_SPEED) == value
    ensures d.Performed(old(d.chain.boards), MIN_SPEED, BytesOf(value, 2))
  {
    KeptWord(value);
    d.SetParam(MIN_SPEED, value);
  }

  method WriteStepMode(d: AutoDriver, value: Byte)
    requires d.Framed()
    modifies d.chain
    ensures d.Framed() && d.Register(STEP_MODE) == Long(value, 0, 0, 0)
    ensures d.Performed(old(d.chain.boards), STEP_MODE, [value])
  {
    var long := Long(value, 0, 0, 0);
    KeptByte(long);
    assert DriverValue(STEP_MODE, long) == long && ByteLength(Bits(STEP_MODE)) == 1;
    d.SetParam(STEP_MODE, long);
  }

  predicate Has13Bits(v: Long) {
    v.b1 & 0x1F == v.b1 && v.b2 == 0 && v.b3 == 0
  }

  /** setPWMFreq sets two fields in one read-modify-write. */
  method SetPWMFreq(d: AutoDriver, divisor: Long, multiplier: Long)
    requires d.Framed()
    modifies d.chain
    ensures d.Framed()
    ensures d.Register(CONFIG) == Put(Put(old(d.Register(CONFIG)), F_PWM_INT, divisor), F_PWM_DEC, multiplier)
    ensures d.Performed(old(d.chain.boards), CONFIG, BytesOf(d.Register(CONFIG), 2))
  {
    ConfigBits(d);
    TwoPuts(d.Register(CONFIG), divisor, multiplier);
    var configVal := d.GetParam(CONFIG);
    configVal := configVal.And(F_PWM_INT.Not());
    configVal := configVal.And(F_PWM_DEC.Not());
    configVal := configVal.Or(F_PWM_INT.And(divisor).Or(F_PWM_DEC.And(multiplier)));
    WriteConfig(d, configVal);
  }

  /** CONFIG has two bytes. */
  lemma ConfigBits(d: AutoDriver)
    requires d.Framed()
    ensures d.Register(CONFIG).b2 == 0 && d.Register(CONFIG).b3 == 0
  {
  }

  lemma TwoPuts(w: Long, u: Long, v: Long)
    requires w.b2 == 0 && w.b3 == 0
    ensures var both := Put(Put(w, F_PWM_INT, u), F_PWM_DEC, v); both.b2 == 0 && both.b3 == 0
    ensures w.And(F_PWM_INT.Not()).And(F_PWM_DEC.Not()).Or(F_PWM_INT.And(u).Or(F_PWM_DEC.And(v)))
            == Put(Put(w, F_PWM_INT, u), F_PWM_DEC, v)
  {
  }

  /** configStepMode; the other five bits of the register stay. */
  method ConfigStepMode(d: AutoDriver, stepMode: Byte)
    requires d.Framed()
    modifies d.chain
    ensures d.Framed() && d.Register(STEP_MODE) == Put(old(d.Register(STEP_MODE)), STEP_SEL, Long(stepMode, 0, 0, 0))
    ensures d.Performed(old(d.chain.boards), STEP_MODE, BytesOf(d.Register(STEP_MODE), 1))
  {
    var config := d.GetParam(STEP_MODE);
    var stepModeConfig := (config.b0 & !STEP_SEL.b0) | (stepMode & STEP_SEL.b0);
    StepModeHasOneByte(d);
    WriteStepMode(d, stepModeConfig);
  }

  method GetStepMode(d: AutoDriver) returns (stepMode: Byte)
    requires d.Framed()
    modifies d.chain
    ensures d.chain.boards == old(d.chain.boards) && stepMode == old(d.Register(STEP_MODE)).b0 & 0x07
  {
    var config := d.GetParam(STEP_MODE);
    stepMode := config.b0 & STEP_SEL.b0;
  }

  function SyncValue(pinFunc: Byte, syncSteps: Byte): Long {
    Long((pinFunc & 0x80) | (syncSteps & 0x70), 0, 0, 0)
  }

  /** configSyncPin; the step selection stays. */
  method ConfigSyncPin(d: AutoDriver, pinFunc: Byte, syncSteps: Byte)
    requires d.Framed()
    modifies d.chain
    ensures d.Framed()
    ensures d.Register(STEP_MODE)
         == Put(old(d.Register(STEP_MODE)), SYNC, SyncValue(pinFunc, syncSteps))
    ensures d.Performed(old(d.chain.boards), STEP_MODE, BytesOf(d.Register(STEP_MODE), 1))
  {
    var config := d.GetParam(STEP_MODE);
    var syncPinConfig := (config.b0 & 0x0F) | ((pinFunc & 0x80) | (syncSteps & 0x70));
    StepModeHasOneByte(d);
    SyncPut(config, pinFunc, syncSteps);
    WriteStepMode(d, syncPinConfig);
  }

  lemma StepModeHasOneByte(d: AutoDriver)
    requires d.Framed()
    ensures var w := d.Register(STEP_MODE); w == Long(w.b0, 0, 0, 0)
  {
  }

  lemma SyncPut(w: Long, pinFunc: Byte, syncSteps: Byte)
    requires w == Long(w.b0, 0, 0, 0)
    ensures Put(w, SYNC, Long((pinFunc & 0x80) | (syncSteps & 0x70), 0, 0, 0))
         == Long((w.b0 & 0x0F) | ((pinFunc & 0x80) | (syncSteps & 0x70)), 0, 0, 0)
  {
  }

  /** setMinSpeed: the optimisation bit stays. */
  method SetMinSpeed(d: AutoDriver, stepsPerSecond: real)
    requires d.Framed() && FitsLong(stepsPerSecond / MIN_STEP)
    modifies d.chain
    ensures d.Framed()
    ensures d.Register(MIN_SPEED)
         == Put(old(d.Register(MIN_SPEED)), MIN_SPEED_VALUE, LongOf(MinSpdCalc(stepsPerSecond)))
    ensures d.Performed(old(d.chain.boards), MIN_SPEED, BytesOf(d.Register(MIN_SPEED), 2))
  {
    MinSpeedBits(d);
    var integerSpeed := LongOf(MinSpdCalc(stepsPerSecond));
    TwelveBits(MinSpdCalc(stepsPerSecond));
    var temp := d.GetParam(MIN_SPEED);
    var value := integerSpeed.Or(temp.And(LSPD_OPT));
    KeepLspdOpt(temp, integerSpeed);
    WriteMinSpeed(d, value);
  }

  method GetMinSpeed(d: AutoDriver) returns (stepsPerSecond: real)
    requires d.Framed()
    modifies d.chain
    ensures d.chain.boards == old(d.chain.boards)
    ensures stepsPerSecond == SpeedShown(old(d.Register(MIN_SPEED)))
  {
    var value := d.GetParam(MIN_SPEED);
    stepsPerSecond := MinSpdParse(NatOfLong(value));
  }

  /** minSpdParse of the register, which masks the value out of it. */
  function SpeedShown(w: Long): real {
    MinSpdParse(NatOfLong(w))
  }

  /** setLoSpdOpt: the speed value stays. */
  method SetLoSpdOpt(d: AutoDriver, enable: bool)
    requires d.Framed()
    modifies d.chain
    ensures d.Framed()
    ensures d.Register(MIN_SPEED) == Put(old(d.Register(MIN_SPEED)), LSPD_OPT, if enable then LSPD_OPT else ZERO)
    ensures d.Performed(old(d.chain.boards), MIN_SPEED, BytesOf(d.Register(MIN_SPEED), 2))
  {
    MinSpeedBits(d);
    var temp := d.GetParam(MIN_SPEED);
    if enable {
      temp := temp.Or(LSPD_OPT);
    } else {
      temp := temp.And(LSPD_OPT.Not());
    }
    SwitchLspdOpt(d.Register(MIN_SPEED), enable);
    WriteMinSpeed(d, temp);
  }

  method GetLoSpdOpt(d: AutoDriver) returns (enabled: bool)
    requires d.Framed()
    modifies d.chain
    ensures d.chain.boards == old(d.chain.boards)
    ensures enabled == (old(d.Register(MIN_SPEED)).And(LSPD_OPT) != ZERO)
    ensures enabled == (old(d.Register(MIN_SPEED)).b1 & 0x10 != 0)
  {
    var value := d.GetParam(MIN_SPEED);
    enabled := value.And(LSPD_OPT) != ZERO;
  }

  /** A number of 12 bits lies in the value field. */
  lemma TwelveBits(n: int)
    requires 0 <= n <= 0xFFF
    ensures LongOf(n).And(MIN_SPEED_VALUE) == LongOf(n)
  {
    var v := LongOf(n);
    NatOfByteOf(n / 0x100);
    UpperBytes(n);
    TwelveBitNumbers(n, NatOf(v.b1), NatOf(v.b2), NatOf(v.b3));
    SmallByte(v.b1);
    SmallByte(v.b2);
    SmallByte(v.b3);
    LowBits(v.b0, v.b1);
  }

  lemma TwelveBitNumbers(n: int, a1: nat, a2: nat, a3: nat)
    requires 0 <= n <= 0xFFF && a1 == n / 0x100 % 0x100 && a2 + 0x100 * a3 == n / 0x1_0000
    ensures a1 < 16 && a2 == 0 && a3 == 0
  {
  }

  lemma LowBits(a: Byte, b: Byte)
    ensures a & 0xFF == a && (b <= 0x0F ==> b & 0x0F == b)
  {
  }

  lemma FieldNumber(w: Long)
    requires Has13Bits(w)
    ensures NatOfLong(w) % 0x1000 == NatOfLong(w.And(MIN_SPEED_VALUE)) % 0x1000
  {
    LowNibble(w.b1);
    LowBits(w.b0, w.b1);
    AllBits();
    NibbleSum(NatOf(w.b0), NatOf(w.b1));
    assert w.And(MIN_SPEED_VALUE) == Long(w.b0, w.b1 & 0x0F, 0, 0) && w == Long(w.b0, w.b1, 0, 0);
  }

  lemma NibbleSum(a: nat, b: nat)
    ensures (a + 0x100 * b) % 0x1000 == (a + 0x100 * (b % 16)) % 0x1000
  {
    assert a + 0x100 * b == a + 0x100 * (b % 16) + 0x1000 * (b / 16);
  }

  lemma LowNibble(b: Byte)
    ensures NatOf(b) % 16 == NatOf(b & 0x0F)
  {
  }

  /** MIN_SPEED never shows more than its 13 bits. */
  lemma MinSpeedBits(d: AutoDriver)
    requires d.Framed()
    ensures Has13Bits(d.Register(MIN_SPEED))
  {
  }

  /** The speed shown depends on the value field only. */
  lemma ShownOfField(d: AutoDriver)
    requires d.Framed()
    ensures SpeedShown(d.Register(MIN_SPEED)) == SpeedShown(d.Register(MIN_SPEED).And(MIN_SPEED_VALUE))
  {
    MinSpeedBits(d);
    FieldNumber(d.Register(MIN_SPEED));
  }

  lemma KeepLspdOpt(w: Long, v: Long)
    requires Has13Bits(w) && v.And(MIN_SPEED_VALUE) == v
    ensures v.Or(w.And(LSPD_OPT)) == Put(w, MIN_SPEED_VALUE, v)
    ensures Has13Bits(Put(w, MIN_SPEED_VALUE, v))
  {
  }

  lemma SwitchLspdOpt(w: Long, enable: bool)
    requires Has13Bits(w)
    ensures (if enable then w.Or(LSPD_OPT) else w.And(LSPD_OPT.Not())) == Put(w, LSPD_OPT, if enable then LSPD_OPT else ZERO)
    ensures Has13Bits(Put(w, LSPD_OPT, if enable then LSPD_OPT else ZERO))
  {
  }
}
