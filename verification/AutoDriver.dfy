/** The driver calls of one board on a daisy chain, byte exchange by byte exchange. */
module AutoDriver {
  import opened Bytes
  import opened L6470Board
  import opened L6470Kept
  import opened L6470Long
  import opened L6470Number
  import opened L6470Speed

  /** The daisy chain: in one exchange every board receives one byte and returns one. */
  class Chain {
    var boards: seq<Board>

    constructor (boards: seq<Board>)
      ensures this.boards == boards
    {
      this.boards := boards;
    }

    /** The packet is shifted through the boards, whose registers hold their replies before and their bytes
        after; the board at position k is the k-th farthest. */
    method Transfer(packet: array<Byte>)
      requires packet.Length == |boards|
      modifies this`boards, packet
      ensures |boards| == old(|boards|)
      ensures forall k :: 0 <= k < |boards| ==>
        boards[k] == Received(old(boards[k]), old(packet[k])).0 && packet[k] == Received(old(boards[k]), old(packet[k])).1
    {
      if |boards| == 0 {
        return;
      }
      ghost var bytes := packet[..];
      Delivered(boards, bytes);
      var latches := Shift(Outputs(boards), packet);
      boards := TakenAll(boards, latches);
    }

    /** What is clocked out takes the place of what was clocked in. */
    static method Shift(first: seq<Byte>, packet: array<Byte>) returns (latches: seq<Byte>)
      requires first != []
      modifies packet
      ensures (latches, packet[..]) == ShiftedAll(first, old(packet[..]))
    {
      latches := first;
      ghost var bytes, all := packet[..], ShiftedAll(first, packet[..]);
      for j := 0 to packet.Length
        invariant latches != []
        invariant forall k :: j <= k < packet.Length ==> packet[k] == bytes[k]
        invariant forall k :: 0 <= k < j ==> packet[k] == all.1[k]
        invariant ShiftedAll(latches, bytes[j..]) == (all.0, all.1[j..])
      {
        ShiftedNext(latches, bytes, j);
        var (next, out) := ShiftedIn(latches, packet[j]);
        latches, packet[j] := next, out;
      }
      assert bytes[packet.Length..] == [];
      assert packet[..] == all.1;
    }
  }

  /** What the boards have ready, the nearest first. */
  function Outputs(boards: seq<Board>): (latches: seq<Byte>)
    ensures |latches| == |boards|
  {
    seq(|boards|, j requires 0 <= j < |boards| => Output(boards[|boards| - 1 - j]))
  }

  /** One packet shifted through gives every board the byte at its place, and its reply comes back there. */
  lemma Delivered(boards: seq<Board>, packet: seq<Byte>)
    requires |boards| == |packet| > 0
    ensures var (latches, outs) := ShiftedAll(Outputs(boards), packet);
      forall k :: 0 <= k < |boards| ==>
        (TakenAll(boards, latches)[k], outs[k]) == Received(boards[k], packet[k])
  {
    PacketLands(Outputs(boards), packet);
  }

  function TakenAll(boards: seq<Board>, latches: seq<Byte>): (after: seq<Board>)
    requires |latches| == |boards|
    ensures |after| == |boards|
  {
    seq(|boards|, k requires 0 <= k < |boards| => Taken(boards[k], latches[|boards| - 1 - k]))
  }

  // ---- the wire

  /** The shift registers of the boards, nearest first: one byte goes in, one comes out. */
  function ShiftedIn(latches: seq<Byte>, byte: Byte): (seq<Byte>, Byte)
    requires latches != []
  {
    ([byte] + latches[..|latches| - 1], latches[|latches| - 1])
  }

  function ShiftedAll(latches: seq<Byte>, packet: seq<Byte>): (r: (seq<Byte>, seq<Byte>))
    requires latches != []
    ensures |r.0| == |latches| && |r.1| == |packet|
    decreases |packet|
  {
    if packet == [] then (latches, [])
    else
      var (next, out) := ShiftedIn(latches, packet[0]);
      var (last, outs) := ShiftedAll(next, packet[1..]);
      (last, [out] + outs)
  }

  lemma ShiftedNext(latches: seq<Byte>, packet: seq<Byte>, j: nat)
    requires latches != [] && j < |packet|
    ensures var (next, out) := ShiftedIn(latches, packet[j]); var (last, outs) := ShiftedAll(latches, packet[j..]);
      outs[0] == out && ShiftedAll(next, packet[j + 1..]) == (last, outs[1..])
  {
    assert packet[j..][1..] == packet[j + 1..];
  }

  /** A packet of m bytes pushed into n registers: its bytes fill the first m in reverse, what
      was there moves on, and the last m have come out. */
  ghost predicate Pushed(latches: seq<Byte>, packet: seq<Byte>, last: seq<Byte>, outs: seq<Byte>) {
    && |packet| <= |latches| == |last| && |outs| == |packet|
    && (forall k :: 0 <= k < |packet| ==> last[k] == packet[|packet| - 1 - k])
    && (forall k :: |packet| <= k < |latches| ==> last[k] == latches[k - |packet|])
    && (forall k :: 0 <= k < |packet| ==> outs[k] == latches[|latches| - 1 - k])
  }

  lemma {:induction false} ShiftedSoFar(latches: seq<Byte>, packet: seq<Byte>)
    requires 0 < |latches| && |packet| <= |latches|
    ensures Pushed(latches, packet, ShiftedAll(latches, packet).0, ShiftedAll(latches, packet).1)
    decreases |packet|
  {
    if packet != [] {
      var next, rest := ShiftedIn(latches, packet[0]).0, packet[1..];
      ShiftedSoFar(next, rest);
      PushedOneMore(latches, packet, ShiftedAll(next, rest).0, ShiftedAll(next, rest).1);
    }
  }

  lemma PushedOneMore(latches: seq<Byte>, packet: seq<Byte>, last: seq<Byte>, outs: seq<Byte>)
    requires 0 < |packet| <= |latches|
    requires Pushed(ShiftedIn(latches, packet[0]).0, packet[1..], last, outs)
    ensures Pushed(latches, packet, last, [latches[|latches| - 1]] + outs)
  {
  }

  /** After as many bytes as there are boards, byte k of the packet is in the register of the
      k-th farthest board, and the k-th byte that came out is what that board had latched for
      its reply: the position of a board counts from the far end of the chain. */
  lemma PacketLands(latches: seq<Byte>, packet: seq<Byte>)
    requires |latches| == |packet| > 0
    ensures forall k :: 0 <= k < |packet| ==>
      ShiftedAll(latches, packet).0[k] == packet[|packet| - 1 - k] && ShiftedAll(latches, packet).1[k] == latches[|packet| - 1 - k]
  {
    ShiftedSoFar(latches, packet);
  }

  /** How many bits the driver transfers for each register. */
  function DriverBits(param: Byte): nat {
    if param == ABS_POS || param == MARK then 22
    else if param == SPEED then 20
    else if param == CONFIG || param == STATUS then 16
    else if param == INT_SPD then 14
    else if param == MIN_SPEED then 13
    else if param == ACC || param == DECEL then 12
    else if param == MAX_SPEED || param == FS_SPD then 10
    else if param == EL_POS then 9
    else 8
  }

  /** What the driver sends as the value of a register: nothing to the read-only SPEED and
      STATUS, and no bits beyond the three short ones' own. */
  function DriverValue(param: Byte, value: Long): Long {
    if param == SPEED || param == STATUS then ZERO
    else if param == K_THERM || param == OCD_TH then value.And(Long(0x0F, 0, 0, 0))
    else if param == STALL_TH then value.And(Long(0x7F, 0, 0, 0))
    else value
  }

  /** The driver's masks and the register's own length together: what a register that is not read-only keeps
      of the bytes sent is the value modulo the capacity of the register. */
  lemma SentIsKept(param: Byte, value: Long)
    requires IsAddress(param) && !ReadOnly(param)
    ensures ByteLength(Bits(param)) <= 3
    ensures var bytes := BytesOf(DriverValue(param, value), ByteLength(Bits(param)));
      NatOfLong(ValueOf(Kept(bytes, Bits(param)))) == NatOfLong(value) % Capacity(Bits(param))
  {
    var n := ByteLength(Bits(param));
    SameByteLength(param);
    MaskedByDriver(param, value, n);
    KeptLow(value, Bits(param), ValueOf(Kept(BytesOf(value, n), Bits(param))));
  }

  lemma MaskedByDriver(param: Byte, value: Long, n: nat)
    requires IsAddress(param) && !ReadOnly(param) && n == ByteLength(Bits(param)) <= 3
    ensures Kept(BytesOf(DriverValue(param, value), n), Bits(param)) == Kept(BytesOf(value, n), Bits(param))
  {
  }

  /** The contents of a register. */
  ghost function Contents(b: Board, param: Byte): Long
    requires L6470Board.Valid(b) && IsAddress(param)
  {
    assert InShape(b.registers[At(param)], param);
    SameByteLength(param);
    ValueOf(b.registers[At(param)])
  }

  /** What setting a register leaves in the registers of a board: a value that fits, or the lowest bits of
      one that does not, in that register if it can be written, and nothing new in any other. */
  ghost predicate IsSet(b: Board, after: Board, param: Byte, value: Long) {
    && L6470Board.Valid(b) && L6470Board.Valid(after) && IsAddress(param)
    && (ReadOnly(param) ==> Contents(after, param) == Contents(b, param))
    && (!ReadOnly(param) ==> NatOfLong(Contents(after, param)) == NatOfLong(value) % Capacity(Bits(param)))
    && (!ReadOnly(param) && NatOfLong(value) < Capacity(Bits(param)) ==> Contents(after, param) == value)
    && forall other :: IsAddress(other) && other != param ==> Contents(after, other) == Contents(b, other)
  }

  lemma SentIsSet(b: Board, after: Board, param: Byte, value: Long)
    requires L6470Board.Valid(b) && L6470Board.Valid(after) && IsAddress(param) && ByteLength(Bits(param)) <= 3
    requires after == Executed(b, param, Set(param), BytesOf(DriverValue(param, value), ByteLength(Bits(param))))
    ensures IsSet(b, after, param, value)
  {
    if !ReadOnly(param) {
      SentIsKept(param, value);
      var shown, n, size := Contents(after, param), NatOfLong(value), Capacity(Bits(param));
      if n < size {
        Small(n, size);
        NumberTellsLong(shown, value);
      }
    }
  }

  lemma Small(n: nat, size: nat)
    requires n < size
    ensures n % size == n
  {
  }

  /** Nothing is sent to two of the read-only registers, and three short ones get no bits beyond their own. */
  lemma NothingSpuriousIsSent(param: Byte, value: Long)
    ensures param in {SPEED, STATUS} ==> DriverValue(param, value) == ZERO
    ensures param in {K_THERM, OCD_TH, STALL_TH} ==>
      BytesOf(DriverValue(param, value), 1) == Kept(BytesOf(value, 1), Bits(param))
  {
  }

  /** The driver's lengths differ from the registers' own for four registers, but never in the
      number of bytes. */
  lemma SameByteLength(param: Byte)
    requires IsAddress(param)
    ensures 1 <= ByteLength(DriverBits(param)) == ByteLength(Bits(param)) <= 3
    ensures DriverBits(param) == if param in {0x11, 0x12, 0x13, 0x14} then 8 else Bits(param)
  {
  }

  class AutoDriver {
    const chain: Chain
    const position: nat
    const hasBusyPin: bool
    var isBusy: bool

    constructor (chain: Chain, position: nat, hasBusyPin: bool)
      requires position < |chain.boards|
      ensures this.chain == chain && this.position == position && this.hasBusyPin == hasBusyPin && !isBusy
    {
      this.chain := chain;
      this.position := position;
      this.hasBusyPin := hasBusyPin;
      isBusy := false;
    }

    /** Every board is at a command boundary with its registers in shape. */
    ghost predicate Framed()
      reads chain
    {
      && position < |chain.boards|
      && forall k :: 0 <= k < |chain.boards| ==> chain.boards[k].phase == Ready && L6470Board.Valid(chain.boards[k])
    }

    ghost predicate OthersReady()
      reads chain
    {
      && position < |chain.boards|
      && forall k :: 0 <= k < |chain.boards| && k != position ==> chain.boards[k].phase == Ready
    }

    /** One byte to this board, NOPs to all others. */
    method SPIXfer(data: Byte) returns (reply: Byte)
      requires OthersReady()
      modifies chain
      ensures chain.boards == old(chain.boards)[position := Received(old(chain.boards)[position], data).0]
      ensures reply == Received(old(chain.boards)[position], data).1
      ensures OthersReady()
    {
      var dataPacket := new Byte[|chain.boards|];
      for i := 0 to |chain.boards|
        invariant forall k :: 0 <= k < i ==> dataPacket[k] == 0
        invariant chain.boards == old(chain.boards)
      {
        dataPacket[i] := 0;
      }
      dataPacket[position] := data;
      chain.Transfer(dataPacket);
      reply := dataPacket[position];
    }

    /** Sends byte i of the n, and adds its reply to those the board has given so far. */
    method XferNext(value: Long, n: nat, i: nat, ghost was: Board, ghost all: seq<Byte>) returns (reply: Byte)
      requires OthersReady() && i < n <= 3 && all == BytesOf(value, n)
      requires chain.boards[position] == Exchanged(was, all[..i]).0
      modifies chain
      ensures chain.boards == old(chain.boards)[position := Exchanged(was, all[..i + 1]).0]
      ensures Exchanged(was, all[..i + 1]).1 == Exchanged(was, all[..i]).1 + [reply]
      ensures OthersReady()
    {
      SentSoFar(was, value, n, i);
      reply := SPIXfer(value.Byte(n - i - 1));
    }

    method CollectBytes(value: Long, n: nat, ghost all: seq<Byte>) returns (out: Long)
      requires OthersReady() && n <= 3 && all == BytesOf(value, n)
      modifies chain
      ensures chain.boards == old(chain.boards)[position := Exchanged(old(chain.boards)[position], all[..n]).0]
      ensures out == Collected(Exchanged(old(chain.boards)[position], all[..n]).1, n)
      ensures OthersReady()
    {
      ghost var was := chain.boards[position];
      ghost var replies := Exchanged(was, all[..0]).1;
      out := ZERO;
      for i := 0 to n
        invariant OthersReady()
        invariant chain.boards == old(chain.boards)[position := Exchanged(was, all[..i]).0]
        invariant replies == Exchanged(was, all[..i]).1 && |replies| == i
        invariant out == Collected(replies, n)
      {
        var reply := XferNext(value, n, i, was, all);
        CollectedNext(replies, reply, n);
        replies := replies + [reply];
        out := out.With(n - i - 1, reply);
      }
    }

    /** Sends the low n bytes of a value, most significant first, and collects the replies. */
    method XferBytes(value: Long, n: nat) returns (out: Long)
      requires OthersReady() && 1 <= n <= 3
      modifies chain
      ensures var was := old(chain.boards)[position];
        && chain.boards == old(chain.boards)[position := Exchanged(was, BytesOf(value, n)).0]
        && out == ValueOf(Exchanged(was, BytesOf(value, n)).1)
      ensures OthersReady()
    {
      ghost var was, all := chain.boards[position], BytesOf(value, n);
      out := CollectBytes(value, n, all);
      assert all[..n] == all;
      Reassembled(Exchanged(was, all).1);
    }

    method XferParam(value: Long, bitLength: nat) returns (out: Long)
      requires OthersReady() && 1 <= ByteLength(bitLength) <= 3
      modifies chain
      ensures var n := ByteLength(bitLength); var was := old(chain.boards)[position];
        && chain.boards == old(chain.boards)[position := Exchanged(was, BytesOf(value, n)).0]
        && out == ValueOf(Exchanged(was, BytesOf(value, n)).1)
      ensures OthersReady()
    {
      var byteLength := bitLength / 8;
      if bitLength % 8 > 0 {
        byteLength := byteLength + 1;
      }
      out := XferBytes(value, byteLength);
    }

    method ParamHandler(param: Byte, value: Long) returns (out: Long)
      requires OthersReady() && IsAddress(param)
      modifies chain
      ensures var n := ByteLength(Bits(param)); var was := old(chain.boards)[position];
        var bytes := BytesOf(DriverValue(param, value), n);
        && chain.boards == old(chain.boards)[position := Exchanged(was, bytes).0]
        && out == ValueOf(Exchanged(was, bytes).1)
        && (!ReadOnly(param) ==> NatOfLong(ValueOf(Kept(bytes, Bits(param)))) == NatOfLong(value) % Capacity(Bits(param)))
        && (param in {SPEED, STATUS} ==> forall i :: 0 <= i < n ==> bytes[i] == NOP)
      ensures OthersReady()
    {
      SameByteLength(param);
      NothingSpuriousIsSent(param, value);
      ZeroBytes(ByteLength(Bits(param)));
      if !ReadOnly(param) {
        SentIsKept(param, value);
      }
      out := XferParam(DriverValue(param, value), DriverBits(param));
    }

    /** A command that is complete after its argument: afterwards every board is at a command
        boundary, this one has executed exactly this command, and no other has changed. */
    ghost predicate Performed(before: seq<Board>, op: Byte, argument: seq<Byte>)
      reads chain
    {
      && Framed() && |chain.boards| == |before|
      && chain.boards[position] == Executed(before[position], op, Decode(op), argument)
      && forall k :: 0 <= k < |before| && k != position ==> chain.boards[k] == before[k]
    }

    /** What every complete driver call guarantees, from the bytes it has exchanged. */
    lemma PerformedByBytes(before: seq<Board>, op: Byte, argument: seq<Byte>)
      requires position < |before| && !Decode(op).Get? && |argument| == ArgumentLength(Decode(op))
      requires forall k :: 0 <= k < |before| ==> before[k].phase == Ready && L6470Board.Valid(before[k])
      requires chain.boards == before[position := Exchanged(before[position], [op] + argument).0]
      ensures Performed(before, op, argument)
    {
      CommandFramed(before[position], op, argument);
      ExecutedValid(before[position], op, argument);
    }

    method SetParam(param: Byte, value: Long)
      requires Framed() && IsAddress(param)
      modifies chain
      ensures Performed(old(chain.boards), param, BytesOf(DriverValue(param, value), ByteLength(Bits(param))))
      ensures IsSet(old(chain.boards)[position], chain.boards[position], param, value)
    {
      SetParamOp(param);
      ghost var before, argument := chain.boards, BytesOf(DriverValue(param, value), ByteLength(Bits(param)));
      var _ := SPIXfer(param | SET_PARAM);
      var _ := ParamHandler(param, value);
      Joined(before[position], param, argument);
      PerformedByBytes(before, param, argument);
      SentIsSet(before[position], chain.boards[position], param, value);
    }

    /** The contents of a register of this board. */
    ghost function Register(param: Byte): Long
      requires Framed() && IsAddress(param)
      reads chain
    {
      Contents(chain.boards[position], param)
    }

    /** Reading a register returns its contents and changes no board. */
    method GetParam(param: Byte) returns (value: Long)
      requires Framed() && IsAddress(param)
      modifies chain
      ensures chain.boards == old(chain.boards)
      ensures value == old(Register(param))
    {
      SetParamOp(param);
      SameByteLength(param);
      ghost var before, nops := chain.boards, BytesOf(DriverValue(param, ZERO), ByteLength(Bits(param)));
      NothingToSend(param);
      var _ := SPIXfer(param | GET_PARAM);
      value := ParamHandler(param, ZERO);
      Joined(before[position], param | GET_PARAM, nops);
      ReadFramed(before[position], param | GET_PARAM, nops);
      assert ([0] + before[position].registers[At(param)])[1..] == before[position].registers[At(param)];
    }

    /** The one read command that is not a register address; it reads STATUS as two bytes. */
    method GetStatus() returns (status: Long)
      requires Framed()
      modifies chain
      ensures chain.boards == old(chain.boards)
      ensures status == old(Register(STATUS))
    {
      ghost var was := chain.boards[position];
      assert InShape(was.registers[At(STATUS)], STATUS);
      StatusFramed(was);
      var _ := SPIXfer(GET_STATUS);
      var high := SPIXfer(0);
      var low := SPIXfer(0);
      status := Long(low, high, 0, 0);
    }

    // ---- positions

    method GetPos() returns (pos: Long)
      requires Framed()
      modifies chain
      ensures chain.boards == old(chain.boards)
      ensures pos == SignExtended(old(Register(ABS_POS)))
    {
      var temp := GetParam(ABS_POS);
      if temp.And(Long(0, 0, 0x20, 0)) != ZERO {
        temp := temp.Or(Long(0, 0, 0xC0, 0xFF));
      }
      pos := temp;
    }

    method GetMark() returns (mark: Long)
      requires Framed()
      modifies chain
      ensures chain.boards == old(chain.boards)
      ensures mark == SignExtended(old(Register(MARK)))
    {
      var temp := GetParam(MARK);
      if temp.And(Long(0, 0, 0x20, 0)) != ZERO {
        temp := temp.Or(Long(0, 0, 0xC0, 0xFF));
      }
      mark := temp;
    }

    method SetPos(newPos: Long)
      requires Framed()
      modifies chain
      ensures Performed(old(chain.boards), 0x01, BytesOf(newPos, 3))
      ensures SignExtended(Register(ABS_POS)) == newPos <==> IsPosition(newPos)
    {
      SetParam(ABS_POS, newPos);
      PositionRoundTrip(newPos);
    }

    method SetMark(newMark: Long)
      requires Framed()
      modifies chain
      ensures Performed(old(chain.boards), 0x03, BytesOf(newMark, 3))
      ensures SignExtended(Register(MARK)) == newMark <==> IsPosition(newMark)
    {
      SetParam(MARK, newMark);
      PositionRoundTrip(newMark);
    }

    // ---- motion commands: a command byte and three argument bytes

    method SendMotion(op: Byte, value: Long)
      requires Framed() && Decode(op).Motion?
      modifies chain
      ensures Performed(old(chain.boards), op, BytesOf(value, 3))
    {
      ghost var before := chain.boards;
      var _ := SPIXfer(op);
      var _ := XferBytes(value, 3);
      Joined(before[position], op, BytesOf(value, 3));
      PerformedByBytes(before, op, BytesOf(value, 3));
    }

    method Run(dir: Byte, stepsPerSec: real)
      requires Framed() && dir <= 1 && FitsUnsigned(stepsPerSec * SPD_SCALE)
      modifies chain
      ensures Performed(old(chain.boards), 0x50 | dir, BytesOf(LongOf(SpdCalc(stepsPerSec)), 3))
    {
      MotionOps(dir, 0);
      ThreeBytes(SpdCalc(stepsPerSec));
      var integerSpeed := LongOf(SpdCalc(stepsPerSec));
      SendMotion(RUN | dir, if integerSpeed.Above20Bits() then MAX_20 else integerSpeed);
    }

    method Move(dir: Byte, numSteps: Long)
      requires Framed() && dir <= 1
      modifies chain
      ensures Performed(old(chain.boards), 0x40 | dir, BytesOf(AtMost22Bits(numSteps), 3))
    {
      MotionOps(dir, 0);
      SendMotion(MOVE | dir, if numSteps.Above22Bits() then MAX_22 else numSteps);
    }

    method GoTo(pos: Long)
      requires Framed()
      modifies chain
      ensures Performed(old(chain.boards), 0x60, BytesOf(SignedAtMost22Bits(pos), 3))
    {
      MotionOps(0, 0);
      SendMotion(GOTO, if !pos.Negative() && pos.Above22Bits() then MAX_22 else pos);
    }

    method GoToDir(dir: Byte, pos: Long)
      requires Framed() && dir <= 1
      modifies chain
      ensures Performed(old(chain.boards), 0x68 | dir, BytesOf(SignedAtMost22Bits(pos), 3))
    {
      MotionOps(dir, 0);
      SendMotion(GOTO_DIR | dir, if !pos.Negative() && pos.Above22Bits() then MAX_22 else pos);
    }

    method GoUntil(action: Byte, dir: Byte, stepsPerSec: real)
      requires Framed() && (action == 0x00 || action == 0x08) && dir <= 1 && FitsUnsigned(stepsPerSec * SPD_SCALE)
      modifies chain
      ensures Performed(old(chain.boards), 0x82 | action | dir, BytesOf(LongOf(SpdCalc(stepsPerSec)), 3))
    {
      MotionOps(dir, action);
      ThreeBytes(SpdCalc(stepsPerSec));
      var integerSpeed := LongOf(SpdCalc(stepsPerSec));
      SendMotion(GO_UNTIL | action | dir, if integerSpeed.Above22Bits() then MAX_22 else integerSpeed);
    }

    // ---- commands of one byte

    method SendPlain(op: Byte)
      requires Framed() && Decode(op) == Plain
      modifies chain
      ensures Performed(old(chain.boards), op, [])
    {
      ghost var before := chain.boards;
      var _ := SPIXfer(op);
      OneExchanged(before[position], op);
      assert [op] + [] == [op];
      PerformedByBytes(before, op, []);
    }

    method SoftStop()
      requires Framed()
      modifies chain
      ensures Performed(old(chain.boards), 0xB0, [])
    {
      SendPlain(SOFT_STOP);
    }

    method ResetPos()
      requires Framed()
      modifies chain
      ensures Performed(old(chain.boards), 0xD8, []) && Register(0x01) == ZERO
    {
      SendPlain(RESET_POS);
    }

    method ResetDev()
      requires Framed()
      modifies chain
      ensures Performed(old(chain.boards), 0xC0, []) && Register(0x18) == Long(0x88, 0x2E, 0, 0)
    {
      SendPlain(RESET_DEVICE);
      assert At(CONFIG) in old(chain.boards[position].registers);
    }

    /** Without a busy pin the BUSY bit decides; it is low while the motor is busy.  With one,
        the bit is only read to detect the start, and the pin going high tells the end. */
    method BusyCheck(pinIsHigh: bool) returns (busy: bool)
      requires Framed()
      modifies chain, this`isBusy
      ensures chain.boards == old(chain.boards)
      ensures var statusBusy := old(Register(STATUS)).b0 & 0x02 == 0;
        && busy == (if hasBusyPin && old(isBusy) then !pinIsHigh else statusBusy)
        && isBusy == if hasBusyPin then busy else old(isBusy)
    {
      if !hasBusyPin || !isBusy {
        var status := GetParam(STATUS);
        busy := status.And(Long(0x02, 0, 0, 0)) == ZERO;
        if hasBusyPin {
          isBusy := busy;
        }
      } else if pinIsHigh {
        isBusy := false;
        busy := false;
      } else {
        busy := true;
      }
    }
  }

  lemma MotionOps(dir: Byte, action: Byte)
    requires dir <= 1 && (action == 0x00 || action == 0x08)
    ensures Decode(RUN | dir) == Motion(20) && Decode(GO_UNTIL | action | dir) == Motion(20)
    ensures Decode(MOVE | dir) == Motion(22) && Decode(GOTO) == Motion(22) && Decode(GOTO_DIR | dir) == Motion(22)
  {
  }

  lemma NothingToSend(param: Byte)
    requires IsAddress(param) && ByteLength(Bits(param)) <= 3
    ensures forall i :: 0 <= i < ByteLength(Bits(param)) ==> BytesOf(DriverValue(param, ZERO), ByteLength(Bits(param)))[i] == NOP
  {
    ZeroStays(param);
    ZeroBytes(ByteLength(Bits(param)));
  }

  lemma ZeroStays(param: Byte)
    ensures DriverValue(param, ZERO) == ZERO
  {
  }

  lemma ZeroBytes(n: nat)
    requires n <= 3
    ensures forall i :: 0 <= i < n ==> BytesOf(ZERO, n)[i] == NOP
  {
  }

  lemma SentSoFar(b: Board, value: Long, n: nat, i: nat)
    requires i < n <= 3
    ensures var all := BytesOf(value, n); var (mid, replies) := Exchanged(b, all[..i]);
      var (last, reply) := Received(mid, value.Byte(n - i - 1));
      Exchanged(b, all[..i + 1]) == (last, replies + [reply])
  {
    var all := BytesOf(value, n);
    assert all[i] == value.Byte(n - i - 1);
    assert all[..i + 1] == all[..i] + [all[i]];
    ExchangedAppend(b, all[..i], all[i]);
  }

  /** The bytes received so far of n, each put in its place. */
  function Collected(replies: seq<Byte>, n: nat): Long
    requires |replies| <= n
  {
    if replies == [] then ZERO
    else
      var last := |replies| - 1;
      Collected(replies[..last], n).With(n - 1 - last, replies[last])
  }

  lemma CollectedNext(replies: seq<Byte>, reply: Byte, n: nat)
    requires |replies| < n
    ensures Collected(replies + [reply], n) == Collected(replies, n).With(n - 1 - |replies|, reply)
  {
  }

  lemma Reassembled(replies: seq<Byte>)
    requires 1 <= |replies| <= 3
    ensures Collected(replies, |replies|) == ValueOf(replies)
  {
    var n := |replies|;
    assert Collected(replies[..1], n) == ZERO.With(n - 1, replies[0]) by {
      assert replies[..1][..0] == [];
    }
    if n >= 2 {
      assert replies[..2][..1] == replies[..1];
      assert Collected(replies[..2], n) == ZERO.With(n - 1, replies[0]).With(n - 2, replies[1]);
    }
    assert replies[..n] == replies;
  }

  /** Setting a register is its own address as a command byte. */
  lemma SetParamOp(param: Byte)
    requires IsAddress(param)
    ensures param | SET_PARAM == param
    ensures Decode(param) == Set(param)
    ensures Decode(param | GET_PARAM) == Get(param)
  {
  }

  /** Three exchanges read the status and leave the board as it was. */
  lemma StatusFramed(b: Board)
    requires b.phase == Ready && L6470Board.Valid(b)
    ensures var first := Received(b, GET_STATUS).0;
      var (second, high) := Received(first, NOP);
      Received(second, NOP).0 == b && [high, Received(second, NOP).1] == b.registers[At(STATUS)]
  {
    assert InShape(b.registers[At(STATUS)], STATUS);
    ReadFramed(b, GET_STATUS, [NOP, NOP]);
    var first := Received(b, GET_STATUS).0;
    Joined(b, GET_STATUS, [NOP, NOP]);
    Joined(first, NOP, [NOP]);
    OneExchanged(Received(first, NOP).0, NOP);
  }

  lemma Joined(b: Board, op: Byte, rest: seq<Byte>)
    ensures var (mid, reply) := Received(b, op); var (last, replies) := Exchanged(mid, rest);
      Exchanged(b, [op] + rest) == (last, [reply] + replies)
  {
  }
}
