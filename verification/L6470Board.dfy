/** One L6470 on the serial bus, as a machine that consumes bytes.  Register lengths and
    command codes are those of sections 9.1 and 9.2 of the ST datasheet DocID16737 Rev 7. */
module L6470Board {
  import opened Bytes

  // ---- registers

  const ABS_POS: Byte := 0x01
  const EL_POS: Byte := 0x02
  const MARK: Byte := 0x03
  const SPEED: Byte := 0x04
  const ACC: Byte := 0x05
  const DECEL: Byte := 0x06
  const MAX_SPEED: Byte := 0x07
  const MIN_SPEED: Byte := 0x08
  const INT_SPD: Byte := 0x0D
  const K_THERM: Byte := 0x11
  const ADC_OUT: Byte := 0x12
  const OCD_TH: Byte := 0x13
  const STALL_TH: Byte := 0x14
  const FS_SPD: Byte := 0x15
  const STEP_MODE: Byte := 0x16
  const CONFIG: Byte := 0x18
  const STATUS: Byte := 0x19

  /** Address 0 is no register: it makes the SetParam byte a NOP. */
  predicate IsAddress(a: Byte) {
    0x01 <= a <= 0x19
  }

  /** How many bits a register has; those not named have eight. */
  function Bits(a: Byte): (bits: nat)
    ensures 4 <= bits <= 22
  {
    if a == ABS_POS || a == MARK then 22
    else if a == SPEED then 20
    else if a == CONFIG || a == STATUS then 16
    else if a == INT_SPD then 14
    else if a == MIN_SPEED then 13
    else if a == ACC || a == DECEL then 12
    else if a == MAX_SPEED || a == FS_SPD then 10
    else if a == EL_POS then 9
    else if a == STALL_TH then 7
    else if a == ADC_OUT then 5
    else if a == K_THERM || a == OCD_TH then 4
    else 8
  }

  predicate ReadOnly(a: Byte) {
    a == SPEED || a == ADC_OUT || a == STATUS
  }

  /** How many bytes so many bits travel in. */
  function ByteLength(bits: nat): nat {
    bits / 8 + if bits % 8 > 0 then 1 else 0
  }

  /** The bits of the first byte that belong to a value of so many bits. */
  function TopMask(bits: nat): Byte {
    match bits % 8
    case 0 => 0xFF
    case 1 => 0x01
    case 2 => 0x03
    case 3 => 0x07
    case 4 => 0x0F
    case 5 => 0x1F
    case 6 => 0x3F
    case _ => 0x7F
  }

  /** What a board keeps of the bytes of a value, most significant byte first. */
  function Kept(bytes: seq<Byte>, bits: nat): seq<Byte> {
    if bytes == [] then [] else [bytes[0] & TopMask(bits)] + bytes[1..]
  }

  // ---- commands

  const NOP: Byte := 0x00
  const SET_PARAM: Byte := 0x00
  const GET_PARAM: Byte := 0x20
  const RUN: Byte := 0x50
  const STEP_CLOCK: Byte := 0x58
  const MOVE: Byte := 0x40
  const GOTO: Byte := 0x60
  const GOTO_DIR: Byte := 0x68
  const GO_UNTIL: Byte := 0x82
  const RELEASE_SW: Byte := 0x92
  const GO_HOME: Byte := 0x70
  const GO_MARK: Byte := 0x78
  const RESET_POS: Byte := 0xD8
  const RESET_DEVICE: Byte := 0xC0
  const SOFT_STOP: Byte := 0xB0
  const HARD_STOP: Byte := 0xB8
  const SOFT_HIZ: Byte := 0xA0
  const HARD_HIZ: Byte := 0xA8
  const GET_STATUS: Byte := 0xD0

  /** What a command byte asks for: register and direction bits are part of the byte. */
  datatype Kind =
    | Idle
    | Set(a: Byte)
    | Get(a: Byte)
    | Motion(bits: nat)
    | Plain
    | Wrong

  function Decode(op: Byte): Kind {
    if op == NOP then Idle
    else if op & 0xE0 == SET_PARAM then (if IsAddress(op & 0x1F) then Set(op & 0x1F) else Wrong)
    else if op & 0xE0 == GET_PARAM then (if IsAddress(op & 0x1F) then Get(op & 0x1F) else Wrong)
    else if op & 0xFE == RUN || op & 0xF6 == GO_UNTIL then Motion(20)
    else if op & 0xFE == MOVE || op == GOTO || op & 0xFE == GOTO_DIR then Motion(22)
    else if op & 0xFE == STEP_CLOCK || op & 0xF6 == RELEASE_SW || op == GO_HOME || op == GO_MARK
      || op == RESET_POS || op == RESET_DEVICE || op == SOFT_STOP || op == HARD_STOP
      || op == SOFT_HIZ || op == HARD_HIZ then Plain
    else if op == GET_STATUS then Get(STATUS)
    else Wrong
  }

  /** A command as executed: its byte and the bytes of its argument. */
  datatype Command = Command(op: Byte, argument: seq<Byte>)

  datatype Phase =
    | Ready
    | Awaiting(op: Byte, kind: Kind, received: seq<Byte>, missing: nat)
    | Replying(bytes: seq<Byte>)

  /** The name of a register. */
  datatype Register = At(address: Byte)

  /** `executed` lists the commands carried out so far; NOPs leave no trace. */
  datatype Board = Board(registers: map<Register, seq<Byte>>, executed: seq<Command>, phase: Phase)

  /** Every register exists and holds no more bits than it has. */
  ghost predicate Valid(b: Board) {
    forall a: Byte :: IsAddress(a) ==> At(a) in b.registers && InShape(b.registers[At(a)], a)
  }

  /** Register contents after a reset, section 9.1: all zero except those listed. */
  function Default(a: Byte): seq<Byte> {
    if a == ACC || a == DECEL then [0x00, 0x8A]
    else if a == MAX_SPEED then [0x00, 0x41]
    else if 0x09 <= a <= 0x0C || a == 0x0F || a == 0x10 then [0x29]
    else if a == INT_SPD then [0x04, 0x08]
    else if a == 0x0E then [0x19]
    else if a == OCD_TH then [0x08]
    else if a == STALL_TH then [0x40]
    else if a == FS_SPD then [0x00, 0x27]
    else if a == STEP_MODE then [0x07]
    else if a == 0x17 then [0xFF]
    else if a == CONFIG then [0x2E, 0x88]
    else seq(ByteLength(Bits(a)), _ => 0)
  }

  // ---- the machine

  /** Carrying out a complete command. */
  function Executed(b: Board, op: Byte, kind: Kind, argument: seq<Byte>): Board {
    match kind
    case Set(a) =>
      var value := Kept(argument, Bits(a));
      Board(if ReadOnly(a) then b.registers else b.registers[At(a) := value], b.executed + [Command(op, value)], Ready)
    case Motion(bits) => Board(b.registers, b.executed + [Command(op, Kept(argument, bits))], Ready)
    case Plain =>
      Board(if op == RESET_POS then b.registers[At(ABS_POS) := [0, 0, 0]]
            else if op == RESET_DEVICE then map r | r in b.registers :: Default(r.address)
            else b.registers,
            b.executed + [Command(op, [])], Ready)
    case _ => b.(phase := Ready)
  }

  /** How many argument bytes a command takes. */
  function ArgumentLength(kind: Kind): nat {
    match kind
    case Set(a) => ByteLength(Bits(a))
    case Motion(_) => 3
    case _ => 0
  }

  /** A byte arriving at a command boundary. */
  function Started(b: Board, op: Byte): Board {
    var kind := Decode(op);
    match kind
    case Get(a) => b.(phase := Replying(if At(a) in b.registers then b.registers[At(a)] else []))
    case _ =>
      if ArgumentLength(kind) > 0 then b.(phase := Awaiting(op, kind, [], ArgumentLength(kind)))
      else Executed(b, op, kind, [])
  }

  /** The byte a board has ready to be clocked out in the next exchange. */
  function Output(b: Board): Byte {
    if b.phase.Replying? && b.phase.bytes != [] then b.phase.bytes[0] else 0
  }

  /** A byte taken in.  A reply goes on while NOPs arrive; any other byte cuts it short and starts a
      command. */
  function Taken(b: Board, byte: Byte): Board {
    match b.phase
    case Ready => Started(b, byte)
    case Awaiting(op, kind, received, missing) =>
      var bytes := received + [byte];
      if missing <= 1 then Executed(b, op, kind, bytes)
      else b.(phase := Awaiting(op, kind, bytes, missing - 1))
    case Replying(bytes) =>
      if byte != NOP || bytes == [] then Started(b, byte)
      else b.(phase := if |bytes| == 1 then Ready else Replying(bytes[1..]))
  }

  /** One byte exchanged: the board's next state and the byte it sends back meanwhile. */
  function Received(b: Board, byte: Byte): (Board, Byte) {
    (Taken(b, byte), Output(b))
  }

  /** A run of bytes exchanged, and the bytes sent back. */
  function Exchanged(b: Board, bytes: seq<Byte>): (r: (Board, seq<Byte>))
    ensures |r.1| == |bytes|
    decreases |bytes|
  {
    if bytes == [] then (b, [])
    else
      var (next, reply) := Received(b, bytes[0]);
      var (last, replies) := Exchanged(next, bytes[1..]);
      (last, [reply] + replies)
  }

  lemma OneExchanged(b: Board, byte: Byte)
    ensures Exchanged(b, [byte]) == (Received(b, byte).0, [Received(b, byte).1])
  {
    var next := Received(b, byte).0;
    assert [byte][1..] == [];
    assert Exchanged(next, []) == (next, []);
    var reply := Received(b, byte).1;
    assert [reply] + [] == [reply];
  }

  lemma {:induction false} ExchangedAppend(b: Board, bytes: seq<Byte>, byte: Byte)
    ensures var (mid, replies) := Exchanged(b, bytes); var (last, reply) := Received(mid, byte);
      Exchanged(b, bytes + [byte]) == (last, replies + [reply])
    decreases |bytes|
  {
    if bytes == [] {
      assert bytes + [byte] == [byte];
      assert Exchanged(b, []) == (b, []);
      assert [] + [Received(b, byte).1] == [Received(b, byte).1];
      OneExchanged(b, byte);
    } else {
      assert (bytes + [byte])[1..] == bytes[1..] + [byte];
      ExchangedAppend(Received(b, bytes[0]).0, bytes[1..], byte);
      var (mid, replies) := Exchanged(Received(b, bytes[0]).0, bytes[1..]);
      var first, last := Received(b, bytes[0]).1, Received(mid, byte).1;
      assert [first] + (replies + [last]) == ([first] + replies) + [last];
    }
  }

  /** A board that is at a command boundary ignores NOPs. */
  lemma IgnoresNop(b: Board)
    requires b.phase == Ready
    ensures Received(b, NOP) == (b, 0)
  {
  }

  lemma ExecutedForgetsPhase(b: Board, c: Board, op: Byte, kind: Kind, v: seq<Byte>)
    requires b.registers == c.registers && b.executed == c.executed
    requires kind.Set? || kind.Motion? || b.phase == c.phase
    ensures Executed(b, op, kind, v) == Executed(c, op, kind, v)
    ensures Executed(b, op, kind, v).phase == Ready
  {
  }

  /** Argument bytes are collected until the last one completes the command. */
  lemma {:induction false} ArgumentCompletes(b: Board, bytes: seq<Byte>)
    requires b.phase.Awaiting? && |bytes| == b.phase.missing > 0 && (b.phase.kind.Set? || b.phase.kind.Motion?)
    ensures Exchanged(b, bytes).0 == Executed(b, b.phase.op, b.phase.kind, b.phase.received + bytes)
    decreases |bytes|
  {
    var next := Received(b, bytes[0]).0;
    if |bytes| == 1 {
      assert bytes == [bytes[0]];
      OneExchanged(b, bytes[0]);
    } else {
      ArgumentCompletes(next, bytes[1..]);
      assert b.phase.received + bytes == (b.phase.received + [bytes[0]]) + bytes[1..];
      ExecutedForgetsPhase(b, next, b.phase.op, b.phase.kind, b.phase.received + bytes);
    }
  }

  /** A reply is clocked out by as many NOPs as it has bytes, and then the board is ready. */
  lemma {:induction false} ReplyCompletes(b: Board, nops: seq<Byte>)
    requires b.phase.Replying? && |nops| == |b.phase.bytes| > 0 && forall i :: 0 <= i < |nops| ==> nops[i] == NOP
    ensures Exchanged(b, nops) == (b.(phase := Ready), b.phase.bytes)
    decreases |nops|
  {
    var next := Received(b, nops[0]).0;
    assert b.phase.bytes == [b.phase.bytes[0]] + b.phase.bytes[1..];
    if |nops| == 1 {
      assert nops == [NOP];
      OneExchanged(b, NOP);
    } else {
      ReplyCompletes(next, nops[1..]);
    }
  }

  /** Framing, board side: a ready board fed a command byte and an argument of the right length
      ends ready, having executed exactly that command. */
  lemma CommandFramed(b: Board, op: Byte, argument: seq<Byte>)
    requires b.phase == Ready && !Decode(op).Get? && |argument| == ArgumentLength(Decode(op))
    ensures Exchanged(b, [op] + argument).0 == Executed(b, op, Decode(op), argument)
    ensures Executed(b, op, Decode(op), argument).phase == Ready
  {
    var kind := Decode(op);
    var started := Started(b, op);
    assert ([op] + argument)[1..] == argument;
    if argument != [] {
      ArgumentCompletes(started, argument);
      assert [] + argument == argument;
      ExecutedForgetsPhase(b, started, op, kind, argument);
    } else {
      assert Exchanged(started, []) == (started, []);
      ExecutedForgetsPhase(b, b, op, Wrong, []);
    }
  }

  /** A read: the command byte and NOPs for the reply leave the board as it was, and the bytes
      that come back are those of the register. */
  lemma ReadFramed(b: Board, op: Byte, nops: seq<Byte>)
    requires b.phase == Ready && Valid(b) && Decode(op).Get? && IsAddress(Decode(op).a)
    requires |nops| == ByteLength(Bits(Decode(op).a)) && forall i :: 0 <= i < |nops| ==> nops[i] == NOP
    ensures Exchanged(b, [op] + nops) == (b, [0] + b.registers[At(Decode(op).a)])
  {
    var started := Started(b, op);
    assert ([op] + nops)[1..] == nops;
    ReplyCompletes(started, nops);
  }

  ghost predicate InShape(bytes: seq<Byte>, a: Byte) {
    |bytes| == ByteLength(Bits(a)) && Kept(bytes, Bits(a)) == bytes
  }

  /** Executing a command with a full-length argument keeps the registers in shape. */
  lemma ExecutedValid(b: Board, op: Byte, argument: seq<Byte>)
    requires Valid(b) && |argument| == ArgumentLength(Decode(op))
    ensures Valid(Executed(b, op, Decode(op), argument))
  {
    match Decode(op)
    case Set(a) => SetValid(b, op, a, argument);
    case Plain => PlainValid(b, op);
    case _ =>
  }

  lemma SetValid(b: Board, op: Byte, a: Byte, argument: seq<Byte>)
    requires Valid(b) && |argument| == ByteLength(Bits(a))
    ensures Valid(Executed(b, op, Set(a), argument))
  {
  }

  lemma PlainValid(b: Board, op: Byte)
    requires Valid(b)
    ensures Valid(Executed(b, op, Plain, []))
  {
    if op == RESET_DEVICE {
      forall a: Byte | IsAddress(a) ensures InShape(Default(a), a) {
        DefaultInShape(a);
      }
    } else if op == RESET_POS {
      ZeroInShape();
      StoredValid(b, ABS_POS, [0, 0, 0]);
    }
  }

  lemma StoredValid(b: Board, a: Byte, value: seq<Byte>)
    requires Valid(b) && InShape(value, a)
    ensures Valid(b.(registers := b.registers[At(a) := value]))
  {
  }

  lemma DefaultInShape(a: Byte)
    requires IsAddress(a)
    ensures InShape(Default(a), a)
  {
  }

  lemma ZeroInShape()
    ensures InShape([0, 0, 0], ABS_POS)
  {
  }

  // ---- the tables of the datasheet

  /** Section 9.1: how many bits the registers have, by address. */
  lemma RegisterTable()
    ensures Bits(0x01) == 22 && Bits(0x02) == 9 && Bits(0x03) == 22 && Bits(0x04) == 20
    ensures Bits(0x05) == 12 && Bits(0x06) == 12 && Bits(0x07) == 10 && Bits(0x08) == 13
    ensures forall a: Byte :: 0x09 <= a <= 0x0C || 0x0E <= a <= 0x10 ==> Bits(a) == 8
    ensures Bits(0x0D) == 14 && Bits(0x11) == 4 && Bits(0x12) == 5 && Bits(0x13) == 4 && Bits(0x14) == 7
    ensures Bits(0x15) == 10 && Bits(0x16) == 8 && Bits(0x17) == 8 && Bits(0x18) == 16 && Bits(0x19) == 16
    ensures forall a: Byte :: ReadOnly(a) <==> a == 0x04 || a == 0x12 || a == 0x19
  {
  }

  /** Section 9.2: what every byte means at a command boundary. */
  lemma CommandTable(op: Byte)
    ensures Decode(op) == Idle <==> op == 0
    ensures Decode(op) == Motion(20) <==> op in {0x50, 0x51, 0x82, 0x83, 0x8A, 0x8B}
    ensures Decode(op) == Motion(22) <==> op in {0x40, 0x41, 0x60, 0x68, 0x69}
    ensures Decode(op) == Plain
       <==> op in {0x58, 0x59, 0x92, 0x93, 0x9A, 0x9B, 0x70, 0x78, 0xD8, 0xC0, 0xB0, 0xB8, 0xA0, 0xA8}
    ensures forall a: Byte :: Decode(op) == Set(a) <==> op == a && 0x01 <= a <= 0x19
    ensures forall a: Byte :: Decode(op) == Get(a) <==> (op == 0x20 + a && 0x01 <= a <= 0x19) || (op == 0xD0 && a == 0x19)
  {
  }

  /** A motion command is recorded with the bits of its argument that it takes, 20 or 22, and changes no register. */
  lemma MotionExecuted(b: Board, op: Byte, argument: seq<Byte>)
    requires Decode(op).Motion? && |argument| == 3
    ensures var mask: Byte := if op in {0x50, 0x51, 0x82, 0x83, 0x8A, 0x8B} then 0x0F else 0x3F;
      Executed(b, op, Decode(op), argument)
        == Board(b.registers, b.executed + [Command(op, [argument[0] & mask] + argument[1..])], Ready)
  {
    CommandTable(op);
  }

  /** A command without argument is recorded; only the two resets change registers. */
  lemma PlainExecuted(b: Board, op: Byte)
    requires Decode(op) == Plain
    ensures var after := Executed(b, op, Plain, []);
      && after.executed == b.executed + [Command(op, [])] && after.phase == Ready
      && after.registers.Keys == b.registers.Keys + (if op == 0xD8 then {At(0x01)} else {})
      && forall r :: r in b.registers ==>
           after.registers[r] == if op == 0xC0 then Default(r.address) else if op == 0xD8 && r == At(0x01) then [0, 0, 0] else b.registers[r]
  {
  }

  /** Section 9.1: the contents after a reset. */
  lemma DefaultTable()
    ensures Default(0x05) == Default(0x06) == [0x00, 0x8A] && Default(0x07) == [0x00, 0x41]
    ensures forall a: Byte :: 0x09 <= a <= 0x0C || 0x0F <= a <= 0x10 ==> Default(a) == [0x29]
    ensures Default(0x0D) == [0x04, 0x08] && Default(0x0E) == [0x19] && Default(0x13) == [0x08] && Default(0x14) == [0x40]
    ensures Default(0x15) == [0x00, 0x27] && Default(0x16) == [0x07] && Default(0x17) == [0xFF] && Default(0x18) == [0x2E, 0x88]
  {
  }

  lemma DefaultZeros(a: Byte)
    requires a in {0x01, 0x02, 0x03, 0x04, 0x08, 0x11, 0x12, 0x19}
    ensures forall i :: 0 <= i < |Default(a)| ==> Default(a)[i] == 0
  {
  }
}
