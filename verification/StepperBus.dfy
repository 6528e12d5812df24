/** The motor that the positioning modes command, and the board that receives the bytes: what the driver calls
    do to one is what they say to the other. */
module StepperBus {
  import opened Bytes
  import opened L6470Board
  import opened L6470Long
  import opened L6470Number
  import AutoDriver
  import Stepper = StepperMotor

  /** The registers of a board show where its motor is and whether it is busy. */
  ghost predicate Shows(b: Board, m: Stepper.Motor) {
    && Valid(b)
    && b.registers[At(ABS_POS)] == BytesOf(LongOf(m.AbsPos()), 3)
    && InShape(b.registers[At(STATUS)], STATUS)
    && (b.registers[At(STATUS)][1] & 0x02 == 0 <==> m.Busy())
  }

  function DirBit(dir: Stepper.Direction): Byte {
    if dir.Forward? then 0x01 else 0x00
  }

  /** What a command carried out means to the motor. */
  function Commanded(m: Stepper.Motor, c: Command): Stepper.Motor
    requires |c.argument| <= 3
  {
    if c.op & 0xFE == GOTO_DIR then
      m.Sent(if c.op & 0x01 != 0 then Stepper.Forward else Stepper.Reverse, NatOfLong(ValueOf(c.argument)))
    else if c.op == SOFT_STOP then m.SoftStopped()
    else m
  }

  lemma OpOf(dir: Stepper.Direction)
    ensures var op := GOTO_DIR | DirBit(dir);
      op & 0xFE == GOTO_DIR && (op & 0x01 != 0 <==> dir.Forward?) && Decode(op) == Motion(22) && SOFT_STOP & 0xFE != GOTO_DIR
  {
  }

  /** The argument bytes of a target say the target. */
  lemma TargetOnTheWire(steps: nat)
    requires steps < Stepper.COUNTER_RANGE
    ensures var bytes := Kept(BytesOf(SignedAtMost22Bits(LongOf(steps)), 3), 22);
      |bytes| == 3 && NatOfLong(ValueOf(bytes)) == steps
  {
    ThreeBytes(steps);
    ClampedArguments(LongOf(steps));
    NatOfLongOf(steps);
    NoOverflow(steps);
  }

  /** The position read is the signed position of the motor. */
  lemma PositionOnTheWire(m: Stepper.Motor)
    ensures IntOf(SignExtended(ValueOf(BytesOf(LongOf(m.AbsPos()), 3)))) == m.SignedPos()
  {
    ThreeBytes(m.AbsPos());
    SignedNumber(m.AbsPos());
  }

  method GetPos(d: AutoDriver.AutoDriver, ghost m: Stepper.Motor) returns (pos: Long)
    requires d.Framed() && Shows(d.chain.boards[d.position], m)
    modifies d.chain
    ensures d.chain.boards == old(d.chain.boards) && IntOf(pos) == m.SignedPos()
  {
    pos := d.GetPos();
    PositionOnTheWire(m);
  }

  /** With a busy pin that shows what the motor does, or without one, the answer is whether it is busy. */
  method BusyCheck(d: AutoDriver.AutoDriver, pinIsHigh: bool, ghost m: Stepper.Motor) returns (busy: bool)
    requires d.Framed() && Shows(d.chain.boards[d.position], m) && (d.hasBusyPin ==> pinIsHigh == !m.Busy())
    modifies d.chain, d`isBusy
    ensures d.chain.boards == old(d.chain.boards) && busy == m.Busy()
  {
    ghost var b := d.chain.boards[d.position];
    busy := d.BusyCheck(pinIsHigh);
    assert ValueOf(b.registers[At(STATUS)]).b0 == b.registers[At(STATUS)][1];
  }

  /** The board ends up with one more command, and what that means is that the motor is sent. */
  method GoToDir(d: AutoDriver.AutoDriver, dir: Stepper.Direction, steps: nat, ghost m: Stepper.Motor)
    requires d.Framed() && steps < Stepper.COUNTER_RANGE
    modifies d.chain
    ensures d.Framed()
    ensures var before, after := old(d.chain.boards)[d.position].executed, d.chain.boards[d.position].executed;
      && |after| == |before| + 1 && after[..|before|] == before
      && after[|before|].op == (if dir.Forward? then 0x69 else 0x68)
      && |after[|before|].argument| == 3 && Commanded(m, after[|before|]) == m.Sent(dir, steps)
  {
    OpOf(dir);
    TargetOnTheWire(steps);
    d.GoToDir(DirBit(dir), LongOf(steps));
  }

  method SoftStop(d: AutoDriver.AutoDriver, ghost m: Stepper.Motor)
    requires d.Framed()
    modifies d.chain
    ensures d.Framed()
    ensures var before, after := old(d.chain.boards)[d.position].executed, d.chain.boards[d.position].executed;
      && |after| == |before| + 1 && after[..|before|] == before
      && after[|before|].op == 0xB0 && after[|before|].argument == [] && Commanded(m, after[|before|]) == m.SoftStopped()
  {
    OpOf(Stepper.Forward);
    d.SoftStop();
  }
}
