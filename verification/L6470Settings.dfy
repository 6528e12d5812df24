/** Any sequence of setter calls over the bus, and what the getters return after it. */
module L6470Settings {
  import opened Bytes
  import opened L6470Board
  import opened L6470Long
  import opened L6470Number
  import opened L6470Speed
  import opened AutoDriver
  import opened L6470Config

  /** One setter call; the five setters of single CONFIG fields differ in the field only. */
  datatype Setting =
    | ConfigField(field: nat, value: Long)
    | PWMFreq(divisor: Long, multiplier: Long)
    | StepMode(mode: Byte)
    | SyncPin(pinFunc: Byte, syncSteps: Byte)
    | MinSpeed(stepsPerSecond: real)
    | LoSpdOpt(enable: bool)

  predicate Possible(s: Setting) {
    && (s.ConfigField? ==> s.field < |CONFIG_FIELDS|)
    && (s.MinSpeed? ==> FitsLong(s.stepsPerSecond / MIN_STEP))
  }

  predicate Settable(a: Byte) {
    a == CONFIG || a == STEP_MODE || a == MIN_SPEED
  }

  function RegisterOf(s: Setting): (a: Byte)
    ensures Settable(a)
  {
    if s.ConfigField? || s.PWMFreq? then CONFIG else if s.StepMode? || s.SyncPin? then STEP_MODE else MIN_SPEED
  }

  /** The fields of a register that setters set. */
  function FieldsOf(a: Byte): seq<Long>
    requires Settable(a)
  {
    if a == CONFIG then CONFIG_FIELDS else if a == STEP_MODE then [STEP_SEL, SYNC] else [LSPD_OPT, MIN_SPEED_VALUE]
  }

  function WritesOf(s: Setting): seq<Write>
    requires Possible(s)
  {
    match s
    case ConfigField(field, value) => [Write(CONFIG_FIELDS[field], value)]
    case PWMFreq(divisor, multiplier) => [Write(F_PWM_INT, divisor), Write(F_PWM_DEC, multiplier)]
    case StepMode(mode) => [Write(STEP_SEL, Long(mode, 0, 0, 0))]
    case SyncPin(pinFunc, syncSteps) => [Write(SYNC, SyncValue(pinFunc, syncSteps))]
    case MinSpeed(stepsPerSecond) => [Write(MIN_SPEED_VALUE, LongOf(MinSpdCalc(stepsPerSecond)))]
    case LoSpdOpt(enable) => [Write(LSPD_OPT, if enable then LSPD_OPT else ZERO)]
  }

  /** What a sequence of calls writes to one register. */
  function WritesTo(a: Byte, settings: seq<Setting>): seq<Write>
    requires forall s :: s in settings ==> Possible(s)
  {
    if settings == [] then []
    else
      var last := settings[|settings| - 1];
      WritesTo(a, settings[..|settings| - 1]) + if RegisterOf(last) == a then WritesOf(last) else []
  }

  /** The value a field was last set to, or the word it was in before. */
  function LastSet(a: Byte, w: Long, settings: seq<Setting>, field: Long): Long
    requires forall s :: s in settings ==> Possible(s)
  {
    LastWritten(w, WritesTo(a, settings), field)
  }

  // ---- words

  lemma {:induction false} AfterAppend(w: Long, first: seq<Write>, second: seq<Write>)
    ensures After(w, first + second) == After(After(w, first), second)
    decreases |first|
  {
    if first == [] {
      assert first + second == second;
    } else {
      assert (first + second)[1..] == first[1..] + second;
      AfterAppend(Put(w, first[0].field, first[0].value), first[1..], second);
    }
  }

  lemma WritesAreFields(s: Setting)
    requires Possible(s)
    ensures forall x :: x in WritesOf(s) ==> x.field in FieldsOf(RegisterOf(s))
  {
    assert CONFIG_FIELDS[6] == F_PWM_INT && CONFIG_FIELDS[5] == F_PWM_DEC;
  }

  lemma {:induction false} WritesToAreFields(a: Byte, settings: seq<Setting>)
    requires Settable(a) && forall s :: s in settings ==> Possible(s)
    ensures forall x :: x in WritesTo(a, settings) ==> x.field in FieldsOf(a)
  {
    if settings != [] {
      WritesToAreFields(a, settings[..|settings| - 1]);
      WritesAreFields(settings[|settings| - 1]);
    }
  }

  lemma FieldsApart(a: Byte, i: nat, j: nat)
    requires Settable(a) && i < |FieldsOf(a)| && j < |FieldsOf(a)| && i != j
    ensures Apart(FieldsOf(a)[i], FieldsOf(a)[j])
  {
    OtherFieldsApart();
    if a == CONFIG {
      if i < j { ConfigFieldsApart(i, j); } else { ConfigFieldsApart(j, i); }
    }
    ApartSymmetric(FieldsOf(a)[j], FieldsOf(a)[i]);
  }

  /** Whatever is set before, between and after, each field of the three registers reads as it was last set. */
  lemma FieldReadsLastSet(a: Byte, w: Long, settings: seq<Setting>, field: Long)
    requires Settable(a) && field in FieldsOf(a) && forall s :: s in settings ==> Possible(s)
    ensures After(w, WritesTo(a, settings)).And(field) == LastSet(a, w, settings, field).And(field)
  {
    WritesToAreFields(a, settings);
    forall x | x in WritesTo(a, settings) ensures x.field == field || Apart(x.field, field) {
      var i :| 0 <= i < |FieldsOf(a)| && FieldsOf(a)[i] == x.field;
      var j :| 0 <= j < |FieldsOf(a)| && FieldsOf(a)[j] == field;
      if i != j { FieldsApart(a, i, j); }
    }
    FieldsAreIndependent(w, w, WritesTo(a, settings), field);
  }

  lemma AfterOne(w: Long, x: Write)
    ensures After(w, [x]) == Put(w, x.field, x.value)
  {
  }

  lemma AfterTwo(w: Long, x: Write, y: Write)
    ensures After(w, [x, y]) == Put(Put(w, x.field, x.value), y.field, y.value)
  {
    assert [x, y][1..] == [y];
    AfterOne(Put(w, x.field, x.value), y);
  }

  function LengthOf(a: Byte): (n: nat)
    requires Settable(a)
    ensures n == ByteLength(Bits(a)) <= 2
  {
    if a == STEP_MODE then 1 else 2
  }

  // ---- over the bus

  ghost predicate OthersSame(b: Board, c: Board)
    requires L6470Board.Valid(b) && L6470Board.Valid(c)
  {
    forall a: Byte :: IsAddress(a) && !Settable(a) ==> b.registers[At(a)] == c.registers[At(a)]
  }

  /** A board after a sequence of setter calls: one command for each, the three registers written as the calls
      say, and every other register as it was. */
  ghost predicate TookSettings(b: Board, c: Board, settings: seq<Setting>)
    requires forall s :: s in settings ==> Possible(s)
  {
    && L6470Board.Valid(b) && L6470Board.Valid(c) && c.phase == Ready
    && |c.executed| == |b.executed| + |settings| && c.executed[..|b.executed|] == b.executed
    && OthersSame(b, c)
    && forall a: Byte :: Settable(a) ==> Contents(c, a) == After(Contents(b, a), WritesTo(a, settings))
  }

  lemma TookNothing(b: Board)
    requires L6470Board.Valid(b) && b.phase == Ready
    ensures TookSettings(b, b, [])
  {
  }

  /** What carrying out a write of one register does to the board. */
  ghost predicate Wrote(c: Board, d: Board, a: Byte) {
    && d.phase == Ready && |d.executed| == |c.executed| + 1 && d.executed[..|c.executed|] == c.executed
    && forall x: Byte :: IsAddress(x) && x != a && At(x) in c.registers ==>
         At(x) in d.registers && d.registers[At(x)] == c.registers[At(x)]
  }

  lemma ExecutedWrote(c: Board, a: Byte, argument: seq<Byte>)
    requires Settable(a)
    ensures Wrote(c, Executed(c, a, Decode(a), argument), a)
  {
    SetParamOp(a);
  }

  lemma WritesNext(a: Byte, settings: seq<Setting>, s: Setting, w: Long)
    requires (forall x :: x in settings ==> Possible(x)) && Possible(s)
    ensures After(w, WritesTo(a, settings + [s]))
         == if RegisterOf(s) == a then After(After(w, WritesTo(a, settings)), WritesOf(s)) else After(w, WritesTo(a, settings))
  {
    assert (settings + [s])[..|settings|] == settings;
    AfterAppend(w, WritesTo(a, settings), WritesOf(s));
    assert WritesTo(a, settings) + [] == WritesTo(a, settings);
  }

  /** One call more: the board took the settings so far, and then a write of the register of the next. */
  ghost predicate TookNext(b: Board, c: Board, settings: seq<Setting>, s: Setting, d: Board)
    requires (forall x :: x in settings ==> Possible(x)) && Possible(s)
  {
    && TookSettings(b, c, settings) && L6470Board.Valid(d) && Wrote(c, d, RegisterOf(s))
    && Contents(d, RegisterOf(s)) == After(Contents(c, RegisterOf(s)), WritesOf(s))
  }

  lemma TookOneMore(b: Board, c: Board, settings: seq<Setting>, s: Setting, d: Board)
    requires (forall x :: x in settings ==> Possible(x)) && Possible(s)
    ensures TookNext(b, c, settings, s, d) ==> TookSettings(b, d, settings + [s])
  {
    if TookNext(b, c, settings, s, d) {
      forall a: Byte | Settable(a)
        ensures Contents(d, a) == After(Contents(b, a), WritesTo(a, settings + [s]))
      {
        WritesNext(a, settings, s, Contents(b, a));
        if a != RegisterOf(s) {
          assert IsAddress(a) && d.registers[At(a)] == c.registers[At(a)];
        }
      }
    }
  }

  lemma AfterPWMFreq(w: Long, divisor: Long, multiplier: Long)
    ensures After(w, WritesOf(PWMFreq(divisor, multiplier))) == Put(Put(w, F_PWM_INT, divisor), F_PWM_DEC, multiplier)
  {
    AfterTwo(w, Write(F_PWM_INT, divisor), Write(F_PWM_DEC, multiplier));
  }

  lemma AfterConfigField(w: Long, field: nat, value: Long)
    requires field < |CONFIG_FIELDS|
    ensures After(w, WritesOf(ConfigField(field, value))) == Put(w, CONFIG_FIELDS[field], value)
  {
    AfterOne(w, Write(CONFIG_FIELDS[field], value));
  }

  method ApplyConfigField(d: AutoDriver, field: nat, value: Long)
    requires d.Framed() && field < |CONFIG_FIELDS|
    modifies d.chain
    ensures d.Framed() && d.Register(CONFIG) == After(old(d.Register(CONFIG)), WritesOf(ConfigField(field, value)))
    ensures d.Performed(old(d.chain.boards), CONFIG, BytesOf(d.Register(CONFIG), LengthOf(CONFIG)))
  {
    AfterConfigField(d.Register(CONFIG), field, value);
    ConfigFieldShort(field);
    var f := CONFIG_FIELDS[field];
    SetConfigField(d, f, value);
  }

  lemma ConfigFieldShort(field: nat)
    requires field < |CONFIG_FIELDS|
    ensures CONFIG_FIELDS[field].b2 == 0 && CONFIG_FIELDS[field].b3 == 0
  {
  }

  method ApplyPWMFreq(d: AutoDriver, divisor: Long, multiplier: Long)
    requires d.Framed()
    modifies d.chain
    ensures d.Framed() && d.Register(CONFIG) == After(old(d.Register(CONFIG)), WritesOf(PWMFreq(divisor, multiplier)))
    ensures d.Performed(old(d.chain.boards), CONFIG, BytesOf(d.Register(CONFIG), LengthOf(CONFIG)))
  {
    AfterPWMFreq(d.Register(CONFIG), divisor, multiplier);
    SetPWMFreq(d, divisor, multiplier);
  }

  method ApplyStepMode(d: AutoDriver, s: Setting)
    requires d.Framed() && Possible(s) && RegisterOf(s) == STEP_MODE
    modifies d.chain
    ensures d.Framed() && d.Register(STEP_MODE) == After(old(d.Register(STEP_MODE)), WritesOf(s))
    ensures d.Performed(old(d.chain.boards), STEP_MODE, BytesOf(d.Register(STEP_MODE), LengthOf(STEP_MODE)))
  {
    AfterOne(d.Register(STEP_MODE), WritesOf(s)[0]);
    if s.StepMode? {
      ConfigStepMode(d, s.mode);
    } else {
      ConfigSyncPin(d, s.pinFunc, s.syncSteps);
    }
  }

  method ApplyMinSpeed(d: AutoDriver, s: Setting)
    requires d.Framed() && Possible(s) && RegisterOf(s) == MIN_SPEED
    modifies d.chain
    ensures d.Framed() && d.Register(MIN_SPEED) == After(old(d.Register(MIN_SPEED)), WritesOf(s))
    ensures d.Performed(old(d.chain.boards), MIN_SPEED, BytesOf(d.Register(MIN_SPEED), LengthOf(MIN_SPEED)))
  {
    AfterOne(d.Register(MIN_SPEED), WritesOf(s)[0]);
    if s.MinSpeed? {
      SetMinSpeed(d, s.stepsPerSecond);
    } else {
      SetLoSpdOpt(d, s.enable);
    }
  }

  /** One setter call: one write is executed on the addressed board, and no other board changes. */
  method Apply(d: AutoDriver, s: Setting)
    requires d.Framed() && Possible(s)
    modifies d.chain
    ensures d.Framed()
    ensures d.Register(RegisterOf(s)) == After(old(d.Register(RegisterOf(s))), WritesOf(s))
    ensures d.Performed(old(d.chain.boards), RegisterOf(s), BytesOf(d.Register(RegisterOf(s)), LengthOf(RegisterOf(s))))
    ensures Wrote(old(d.chain.boards)[d.position], d.chain.boards[d.position], RegisterOf(s))
  {
    ghost var was := d.chain.boards[d.position];
    if s.ConfigField? {
      ApplyConfigField(d, s.field, s.value);
    } else if s.PWMFreq? {
      ApplyPWMFreq(d, s.divisor, s.multiplier);
    } else if s.StepMode? || s.SyncPin? {
      ApplyStepMode(d, s);
    } else {
      ApplyMinSpeed(d, s);
    }
    ExecutedWrote(was, RegisterOf(s), BytesOf(d.Register(RegisterOf(s)), LengthOf(RegisterOf(s))));
  }

  method ApplyNext(d: AutoDriver, ghost first: Board, ghost done: seq<Setting>, s: Setting)
    requires d.Framed() && (forall x :: x in done ==> Possible(x)) && Possible(s)
    requires TookSettings(first, d.chain.boards[d.position], done)
    modifies d.chain
    ensures d.Framed() && |d.chain.boards| == |old(d.chain.boards)|
    ensures forall k :: 0 <= k < |d.chain.boards| && k != d.position ==> d.chain.boards[k] == old(d.chain.boards)[k]
    ensures TookSettings(first, d.chain.boards[d.position], done + [s])
  {
    ghost var c := d.chain.boards[d.position];
    Apply(d, s);
    TookOneMore(first, c, done, s, d.chain.boards[d.position]);
  }

  method ApplyAll(d: AutoDriver, settings: seq<Setting>)
    requires d.Framed() && forall s :: s in settings ==> Possible(s)
    modifies d.chain
    ensures d.Framed() && |d.chain.boards| == |old(d.chain.boards)|
    ensures forall k :: 0 <= k < |d.chain.boards| && k != d.position ==> d.chain.boards[k] == old(d.chain.boards)[k]
    ensures TookSettings(old(d.chain.boards)[d.position], d.chain.boards[d.position], settings)
  {
    ghost var first := d.chain.boards;
    TookNothing(first[d.position]);
    for i := 0 to |settings|
      invariant d.Framed() && |d.chain.boards| == |first|
      invariant forall k :: 0 <= k < |first| && k != d.position ==> d.chain.boards[k] == first[k]
      invariant TookSettings(first[d.position], d.chain.boards[d.position], settings[..i])
    {
      ApplyNext(d, first[d.position], settings[..i], settings[i]);
      assert settings[..i + 1] == settings[..i] + [settings[i]];
    }
    assert settings[..|settings|] == settings;
  }

  /** The getters of single fields of CONFIG. */
  method ReadConfig(d: AutoDriver) returns (fields: seq<Long>)
    requires d.Framed()
    modifies d.chain
    ensures d.Framed() && d.chain.boards == old(d.chain.boards)
    ensures |fields| == |CONFIG_FIELDS|
    ensures forall i :: 0 <= i < |fields| ==> fields[i] == old(d.Register(CONFIG)).And(CONFIG_FIELDS[i])
  {
    ghost var boards := d.chain.boards;
    fields := [];
    for i := 0 to |CONFIG_FIELDS|
      invariant d.Framed() && d.chain.boards == boards && |fields| == i
      invariant forall j :: 0 <= j < i ==> fields[j] == old(d.Register(CONFIG)).And(CONFIG_FIELDS[j])
    {
      var field := GetConfigField(d, CONFIG_FIELDS[i]);
      fields := fields + [field];
    }
  }

  /** The getters of STEP_MODE and MIN_SPEED. */
  method ReadOthers(d: AutoDriver) returns (stepMode: Byte, loSpdOpt: bool, minSpeed: real)
    requires d.Framed()
    modifies d.chain
    ensures d.Framed() && d.chain.boards == old(d.chain.boards)
    ensures stepMode == old(d.Register(STEP_MODE)).And(STEP_SEL).b0
    ensures loSpdOpt == (old(d.Register(MIN_SPEED)).And(LSPD_OPT) != ZERO)
    ensures minSpeed == SpeedShown(old(d.Register(MIN_SPEED)).And(MIN_SPEED_VALUE))
  {
    ShownOfField(d);
    stepMode := GetStepMode(d);
    loSpdOpt := GetLoSpdOpt(d);
    minSpeed := GetMinSpeed(d);
  }

  /** Registers and fields as independent lenses: after any sequence of setter calls, in any order, each getter
      returns what was last set, or what was there before, and no other register and no other board has
      changed. */
  method ApplyAllAndRead(d: AutoDriver, settings: seq<Setting>)
    returns (fields: seq<Long>, stepMode: Byte, loSpdOpt: bool, minSpeed: real)
    requires d.Framed() && forall s :: s in settings ==> Possible(s)
    modifies d.chain
    ensures d.Framed() && |d.chain.boards| == |old(d.chain.boards)|
    ensures forall k :: 0 <= k < |d.chain.boards| && k != d.position ==> d.chain.boards[k] == old(d.chain.boards)[k]
    ensures TookSettings(old(d.chain.boards)[d.position], d.chain.boards[d.position], settings)
    ensures |fields| == |CONFIG_FIELDS| && forall i :: 0 <= i < |fields| ==>
      fields[i] == LastSet(CONFIG, old(d.Register(CONFIG)), settings, CONFIG_FIELDS[i]).And(CONFIG_FIELDS[i])
    ensures stepMode == LastSet(STEP_MODE, old(d.Register(STEP_MODE)), settings, STEP_SEL).And(STEP_SEL).b0
    ensures loSpdOpt == (LastSet(MIN_SPEED, old(d.Register(MIN_SPEED)), settings, LSPD_OPT).And(LSPD_OPT) != ZERO)
    ensures minSpeed
         == SpeedShown(LastSet(MIN_SPEED, old(d.Register(MIN_SPEED)), settings, MIN_SPEED_VALUE).And(MIN_SPEED_VALUE))
  {
    ghost var config, steps, speed := d.Register(CONFIG), d.Register(STEP_MODE), d.Register(MIN_SPEED);
    ApplyAll(d, settings);
    fields := ReadConfig(d);
    forall i | 0 <= i < |fields|
      ensures fields[i] == LastSet(CONFIG, config, settings, CONFIG_FIELDS[i]).And(CONFIG_FIELDS[i])
    {
      FieldReadsLastSet(CONFIG, config, settings, CONFIG_FIELDS[i]);
    }
    stepMode, loSpdOpt, minSpeed := ReadOthers(d);
    FieldReadsLastSet(STEP_MODE, steps, settings, STEP_SEL);
    FieldReadsLastSet(MIN_SPEED, speed, settings, LSPD_OPT);
    FieldReadsLastSet(MIN_SPEED, speed, settings, MIN_SPEED_VALUE);
  }

  /** A minimum speed set last is shown as what its register value stands for. */
  lemma MinSpeedSetIsShown(a: seq<Setting>, w: Long, stepsPerSecond: real, rest: seq<Setting>)
    requires (forall s :: s in a ==> Possible(s)) && (forall s :: s in rest ==> Possible(s) && !s.MinSpeed?)
    requires Possible(MinSpeed(stepsPerSecond))
    ensures SpeedShown(LastSet(MIN_SPEED, w, a + [MinSpeed(stepsPerSecond)] + rest, MIN_SPEED_VALUE).And(MIN_SPEED_VALUE))
         == MinSpdParse(MinSpdCalc(stepsPerSecond))
  {
    LastSetStays(w, a + [MinSpeed(stepsPerSecond)], rest);
    var value := LongOf(MinSpdCalc(stepsPerSecond));
    LastSetIs(w, a, stepsPerSecond);
    TwelveBits(MinSpdCalc(stepsPerSecond));
    NatOfSmall(MinSpdCalc(stepsPerSecond));
  }

  lemma {:induction false} LastWrittenAppend(w: Long, first: seq<Write>, second: seq<Write>, field: Long)
    ensures LastWritten(w, first + second, field) == LastWritten(LastWritten(w, first, field), second, field)
    decreases |first|
  {
    if first == [] {
      assert first + second == second;
    } else {
      assert (first + second)[1..] == first[1..] + second;
      LastWrittenAppend(if first[0].field == field then first[0].value else w, first[1..], second, field);
    }
  }

  lemma LastSetIs(w: Long, a: seq<Setting>, stepsPerSecond: real)
    requires (forall s :: s in a ==> Possible(s)) && Possible(MinSpeed(stepsPerSecond))
    ensures LastSet(MIN_SPEED, w, a + [MinSpeed(stepsPerSecond)], MIN_SPEED_VALUE) == LongOf(MinSpdCalc(stepsPerSecond))
  {
    var all := a + [MinSpeed(stepsPerSecond)];
    assert all[..|a|] == a;
    LastWrittenAppend(w, WritesTo(MIN_SPEED, a), WritesOf(MinSpeed(stepsPerSecond)), MIN_SPEED_VALUE);
  }

  lemma {:induction false} LastSetStays(w: Long, a: seq<Setting>, rest: seq<Setting>)
    requires (forall s :: s in a ==> Possible(s)) && (forall s :: s in rest ==> Possible(s) && !s.MinSpeed?)
    ensures LastSet(MIN_SPEED, w, a + rest, MIN_SPEED_VALUE) == LastSet(MIN_SPEED, w, a, MIN_SPEED_VALUE)
  {
    if rest == [] {
      assert a + rest == a;
    } else {
      var front, last := rest[..|rest| - 1], rest[|rest| - 1];
      LastSetStays(w, a, front);
      LastSetOfOther(w, a + front, last);
      assert a + rest == a + front + [last];
    }
  }

  lemma LastSetOfOther(w: Long, a: seq<Setting>, s: Setting)
    requires (forall x :: x in a ==> Possible(x)) && Possible(s) && !s.MinSpeed?
    ensures LastSet(MIN_SPEED, w, a + [s], MIN_SPEED_VALUE) == LastSet(MIN_SPEED, w, a, MIN_SPEED_VALUE)
  {
    assert (a + [s])[..|a|] == a;
    var writes := if RegisterOf(s) == MIN_SPEED then WritesOf(s) else [];
    LastWrittenAppend(w, WritesTo(MIN_SPEED, a), writes, MIN_SPEED_VALUE);
    assert LastWritten(LastSet(MIN_SPEED, w, a, MIN_SPEED_VALUE), writes, MIN_SPEED_VALUE)
        == LastSet(MIN_SPEED, w, a, MIN_SPEED_VALUE);
  }
}
