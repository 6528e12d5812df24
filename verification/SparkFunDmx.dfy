/** The DMX side of the stepper board: the device handle, the position mode object, the
    window cache in front of it, and the board that dispatches a frame to its motors. */
module SparkFunDmx {
  import opened CallOrder
  import opened Dmx
  import opened PositionAxis
  import opened StepperMotor
  import opened Words
  import AddressHull
  import LightSets

  /** The calls of all motors of a board, in the order in which they are made. */
  class Log {
    ghost var calls: seq<Call>

    constructor ()
      ensures calls == []
    {
      calls := [];
    }
  }

  /** One motor behind its driver calls.  Before a call takes effect the motor may make any
      progress; the ghost results record it.  Motors share nothing but the log, so the time during which
      a motor is not addressed is accounted for at its next call. */
  class L6470 {
    const number: nat
    const log: Log
    var motor: Motor

    constructor (number: nat, log: Log)
      ensures this.number == number && this.log == log && motor == Motor(0, Resting)
    {
      this.number := number;
      this.log := log;
      motor := Motor(0, Resting);
    }

    method Elapse() returns (ghost ticks: seq<Tick>)
      modifies this
      ensures motor == Progress(old(motor), ticks)
    {
      var some: seq<Tick> := *;
      motor := Progress(motor, some);
      ticks := some;
    }

    /** Reading the status takes time, in which a decelerating motor makes progress. */
    method BusyCheck() returns (busy: bool, ghost ticks: seq<Tick>)
      modifies this, log
      ensures ticks != []
      ensures motor == Progress(old(motor), ticks) && busy == motor.Busy()
      ensures log.calls == old(log.calls) + [BusyRead(number, busy)]
    {
      var some: seq<Tick> := *;
      var first: Tick := *;
      motor := Progress(motor, [first] + some);
      ticks := [first] + some;
      busy := motor.Busy();
      log.calls := log.calls + [BusyRead(number, busy)];
    }

    /** Polls until the motor is not busy.  A motor that is not seeking gets there. */
    method AwaitNotBusy() returns (ghost waiting: seq<Tick>, ghost polls: seq<Call>)
      requires !motor.motion.Seeking?
      modifies this, log
      ensures motor == Progress(old(motor), waiting) && !motor.Busy()
      ensures log.calls == old(log.calls) + polls && PollsUntilIdle(polls, number)
    {
      var busy;
      busy, waiting := BusyCheck();
      polls := [BusyRead(number, busy)];
      StoppingEnds(old(motor), waiting);
      while busy
        invariant motor == Progress(old(motor), waiting) && busy == motor.Busy()
        invariant !motor.motion.Seeking?
        invariant log.calls == old(log.calls) + polls && Polls(polls, number) && polls[|polls| - 1].busy == busy
        decreases StopMeasure(motor)
      {
        ghost var before, more := motor, [];
        busy, more := BusyCheck();
        StoppingEnds(before, more);
        ProgressAppend(old(motor), waiting, more);
        waiting, polls := waiting + more, polls + [BusyRead(number, busy)];
      }
    }

    method SoftStop() returns (ghost ticks: seq<Tick>)
      modifies this, log
      ensures motor == Progress(old(motor), ticks).SoftStopped()
      ensures log.calls == old(log.calls) + [Stop(number)]
    {
      ticks := Elapse();
      motor := motor.SoftStopped();
      log.calls := log.calls + [Stop(number)];
    }

    method GetPos() returns (pos: int, ghost ticks: seq<Tick>)
      modifies this, log
      ensures motor == Progress(old(motor), ticks) && pos == motor.SignedPos()
      ensures log.calls == old(log.calls) + [PosRead(number)]
    {
      ticks := Elapse();
      pos := motor.SignedPos();
      log.calls := log.calls + [PosRead(number)];
    }

    method GoToDir(dir: Direction, target: nat) returns (ghost ticks: seq<Tick>)
      modifies this, log
      ensures motor == Progress(old(motor), ticks).Sent(dir, target)
      ensures log.calls == old(log.calls) + [Send(number, dir, target)]
    {
      ticks := Elapse();
      motor := motor.Sent(dir, target);
      log.calls := log.calls + [Send(number, dir, target)];
    }
  }

  /** Modes 3, 4 and 5: the same busy and previous-data fields, a scale fixed at construction. */
  class PositionMode {
    const device: L6470
    const width: nat
    const scale: real
    var previousData: nat
    var wasBusy: bool

    constructor (device: L6470, width: nat, scale: real)
      ensures this.device == device && this.width == width && this.scale == scale
      ensures previousData == 0 && !wasBusy
    {
      this.device := device;
      this.width := width;
      this.scale := scale;
      previousData := 0;
      wasBusy := false;
    }

    method HandleBusy() returns (ghost beforeCheck: seq<Tick>, ghost beforeStop: seq<Tick>)
      modifies this`wasBusy, device, device.log
      ensures device.log.calls == old(device.log.calls) + StopCalls(device.number, wasBusy)
      ensures var checked := Progress(old(device.motor), beforeCheck);
        && wasBusy == checked.Busy()
        && device.motor == if wasBusy then Progress(checked, beforeStop).SoftStopped() else checked
    {
      var busy;
      beforeStop := [];
      busy, beforeCheck := device.BusyCheck();
      if busy {
        beforeStop := device.SoftStop();
        wasBusy := true;
      } else {
        wasBusy := false;
      }
    }

    method Data(data: seq<Slot>) returns (ghost beforeRead: seq<Tick>, ghost beforeGo: seq<Tick>, ghost dir: Direction)
      requires scale >= 0.0 && (width == 1 || width == 2) && |data| == width
      modifies this`previousData, device, device.log
      ensures previousData == Value(data)
      ensures width == 1 ==> previousData == data[0]
      ensures width == 2 ==> previousData / 256 == data[0] && previousData % 256 == data[1]
      ensures device.log.calls
           == old(device.log.calls) + SendCalls(device.number, wasBusy, dir, Steps(scale, Value(data)))
      ensures var read := if wasBusy then Progress(old(device.motor), beforeRead) else old(device.motor);
        var steps := Steps(scale, Value(data));
        var isReverse := if wasBusy then AsUint32(read.SignedPos()) > steps else old(previousData) > Value(data);
        dir == (if isReverse then Reverse else Forward) && device.motor == Progress(read, beforeGo).Sent(dir, steps)
    {
      var value := Value(data);
      var steps := Steps(scale, value);
      var isReverse: bool;
      beforeRead := [];
      if wasBusy {
        var position;
        position, beforeRead := device.GetPos();
        isReverse := AsUint32(position) > steps;
      } else {
        isReverse := previousData > value;
      }
      dir := if isReverse then Reverse else Forward;
      beforeGo := device.GoToDir(if isReverse then Reverse else Forward, steps);
      previousData := value;
    }
  }

  lemma PrefixNext(a: seq<Slot>, b: seq<Slot>, k: nat)
    requires k < |a| == |b|
    ensures a[..k + 1] != b[..k + 1] <==> a[..k] != b[..k] || a[k] != b[k]
  {
    assert a[..k + 1] == a[..k] + [a[k]] && b[..k + 1] == b[..k] + [b[k]];
  }

  /** One motor's window of the universe and the cache of what it showed last. */
  class DmxModes {
    var start: Word
    const mode: PositionMode
    const cache: array<Slot>

    ghost predicate Valid()
    {
      && (mode.width == 1 || mode.width == 2)
      && mode.scale >= 0.0
      && cache.Length == mode.width
    }

    ghost function State(): (a: Axis)
      requires Valid()
      reads this, mode, mode.device, cache
      ensures PositionAxis.Valid(a)
    {
      Axis(start, mode.width, mode.scale, cache[..], mode.previousData, mode.wasBusy, mode.device.motor)
    }

    constructor (start: Word, mode: PositionMode)
      requires start <= UNIVERSE_SIZE && (mode.width == 1 || mode.width == 2) && mode.scale >= 0.0
      requires mode.previousData == 0 && !mode.wasBusy && mode.device.motor == Motor(0, Resting)
      ensures Valid() && this.mode == mode && fresh(cache)
      ensures State() == New(start, mode.width, mode.scale)
    {
      this.start := start;
      this.mode := mode;
      this.cache := new Slot[mode.width](_ => 0);
      new;
      assert cache[..] == seq(mode.width, _ => 0);
    }

    method SetDmxStartAddress(start: Word)
      requires Valid()
      modifies this
      ensures State() == Step(old(State()), Readdress(start))
    {
      this.start := start;
    }

    /** Compares and overwrites the cache slot by slot. */
    method IsDmxDataChanged(frame: Frame) returns (changed: bool)
      requires Valid() && |frame.slots| <= UNIVERSE_SIZE
      modifies cache
      ensures changed == Changed(old(State()), frame)
      ensures State() == old(State()).(window := if Accepts(old(State()), frame) then Window(old(State()), frame)
                                                else old(State()).window)
    {
      if |frame.slots| < start + mode.width {
        return false;
      }
      ghost var window, was := Window(State(), frame), cache[..];
      changed := false;
      var lastChannel := start + mode.width - 1;
      var i: nat := start;
      while i <= lastChannel && i <= UNIVERSE_SIZE
        invariant start <= i <= lastChannel + 1
        invariant changed == (window[..i - start] != was[..i - start])
        invariant forall k :: 0 <= k < cache.Length ==> cache[k] == if k < i - start then window[k] else was[k]
      {
        var k := i - start;
        PrefixNext(window, was, k);
        if frame.Memory()[i] != cache[k] {
          changed := true;
        }
        cache[k] := frame.Memory()[i];
        i := i + 1;
      }
      assert window[..mode.width] == window && was[..mode.width] == was;
      assert cache[..] == window;
    }

    method DmxData(frame: Frame)
      returns (ghost beforeRead: seq<Tick>, ghost beforeGo: seq<Tick>, ghost dir: Direction)
      requires Valid() && |frame.slots| <= UNIVERSE_SIZE
      requires Accepts(State(), frame) ==> Window(State(), frame) == State().window
      modifies mode`previousData, mode.device, mode.device.log
      ensures State() == if Accepts(old(State()), frame)
                         then Retargeted(old(State()), Schedule([], [], [], beforeRead, beforeGo))
                         else old(State())
      ensures var steps := Steps(mode.scale, Value(old(State()).window));
        mode.device.log.calls == old(mode.device.log.calls)
          + if Accepts(old(State()), frame) then SendCalls(mode.device.number, mode.wasBusy, dir, steps) else []
    {
      beforeRead, beforeGo, dir := [], [], Forward;
      if |frame.slots| < start + mode.width {
        return;
      }
      beforeRead, beforeGo, dir := mode.Data(frame.Memory()[start..start + mode.width]);
    }
  }

  // ---- the phases of all motors

  ghost function Schedules(stops: seq<Schedule>, waits: seq<seq<Tick>>, readings: seq<seq<Tick>>, goes: seq<seq<Tick>>)
    : (s: seq<Schedule>)
    requires |stops| == |waits| == |readings| == |goes|
    ensures |s| == |stops| && forall j :: 0 <= j < |s| ==>
      s[j] == Schedule(stops[j].beforeCheck, stops[j].beforeStop, waits[j], readings[j], goes[j])
  {
    seq(|stops|, j requires 0 <= j < |stops| =>
      Schedule(stops[j].beforeCheck, stops[j].beforeStop, waits[j], readings[j], goes[j]))
  }

  ghost function FoundBusy(states: seq<Axis>): (b: seq<bool>)
    ensures |b| == |states| && forall j :: 0 <= j < |states| ==> b[j] == states[j].wasBusy
  {
    seq(|states|, j requires 0 <= j < |states| => states[j].wasBusy)
  }

  /** Where each axis is to be sent. */
  ghost function Goals(states: seq<Axis>): (g: seq<nat>)
    requires forall j :: 0 <= j < |states| ==> PositionAxis.Valid(states[j])
    ensures |g| == |states| && forall j :: 0 <= j < |states| ==> g[j] == Goal(states[j])
  {
    seq(|states|, j requires 0 <= j < |states| => Goal(states[j]))
  }

  /** The motors after the first two phases: those whose window changed have been waited for. */
  ghost predicate AllWaited(before: seq<Axis>, frame: Frame, changed: seq<bool>, stops: seq<Schedule>, waits: seq<seq<Tick>>,
                            barrier: seq<Axis>) {
    && |before| == |changed| == |stops| == |waits| == |barrier| == MAX_MOTORS
    && forall j :: 0 <= j < MAX_MOTORS ==>
         if changed[j] then Waited(before[j], frame, stops[j], waits[j], barrier[j]) else barrier[j] == before[j]
  }

  /** The motors after the third phase: those whose window changed have been sent. */
  ghost predicate AllSent(barrier: seq<Axis>, changed: seq<bool>, readings: seq<seq<Tick>>, goes: seq<seq<Tick>>, after: seq<Axis>) {
    && |barrier| == |changed| == |readings| == |goes| == |after| == MAX_MOTORS
    && (forall j :: 0 <= j < MAX_MOTORS ==> PositionAxis.Valid(barrier[j]))
    && forall j :: 0 <= j < MAX_MOTORS ==>
         after[j] == if changed[j] then Retargeted(barrier[j], Schedule([], [], [], readings[j], goes[j])) else barrier[j]
  }

  /** A frame's effect on one motor, and what it leaves of the invariant. */
  ghost predicate Handled(a: Axis, frame: Frame, s: Schedule, barrier: Axis, after: Axis) {
    && PositionAxis.Valid(a)
    && barrier == AtBarrier(a, frame, s) && Settled(a, frame, s) && after == Delivered(a, frame, s)
    && (OnTrack(a) ==> OnTrack(after))
  }

  lemma JoinedLog(log: seq<Call>, a: seq<Call>, b: seq<Call>, c: seq<Call>)
    ensures log + a + b + c == log + (a + b + c)
  {
  }

  lemma MotorHandled(before: seq<Axis>, frame: Frame, changed: seq<bool>, stops: seq<Schedule>, waits: seq<seq<Tick>>,
                     barrier: seq<Axis>, readings: seq<seq<Tick>>, goes: seq<seq<Tick>>, after: seq<Axis>, i: nat)
    requires AllWaited(before, frame, changed, stops, waits, barrier) && AllSent(barrier, changed, readings, goes, after)
    requires i < MAX_MOTORS && PositionAxis.Valid(before[i]) && changed[i] == Changed(before[i], frame)
    ensures Handled(before[i], frame, Schedules(stops, waits, readings, goes)[i], barrier[i], after[i])
  {
    if changed[i] {
      PhasesDeliver(before[i], frame, stops[i], Schedules(stops, waits, readings, goes)[i], barrier[i], after[i]);
    }
  }

  class SparkFunDmx {
    /** A null entry is a motor that is not configured. */
    const modes: seq<DmxModes?>
    const log: Log
    /** The slots of the board. */
    var span: AddressHull.Span
    /** The objects of all motors, and the log. */
    ghost const objects: set<object>

    ghost predicate Has(i: int) {
      0 <= i < |modes| && modes[i] != null
    }

    ghost predicate Valid() {
      && |modes| == MAX_MOTORS && log in objects && this !in objects
      && (forall i :: Has(i) ==>
            && modes[i].Valid() && modes[i].mode.device.log == log && modes[i].mode.device.number == i
            && modes[i] in objects && modes[i].mode in objects && modes[i].mode.device in objects && modes[i].cache in objects)
      && forall i, j :: Has(i) && Has(j) && i != j ==>
            modes[i].mode != modes[j].mode && modes[i].mode.device != modes[j].mode.device && modes[i].cache != modes[j].cache
    }

    constructor (modes: seq<DmxModes?>, span: AddressHull.Span, log: Log, ghost objects: set<object>)
      requires |modes| == MAX_MOTORS && log in objects
      requires forall i :: 0 <= i < MAX_MOTORS && modes[i] != null ==>
        && modes[i].Valid() && modes[i].mode.device.log == log && modes[i].mode.device.number == i
        && modes[i] in objects && modes[i].mode in objects && modes[i].mode.device in objects && modes[i].cache in objects
      requires forall i, j :: 0 <= i < j < MAX_MOTORS && modes[i] != null && modes[j] != null ==>
        modes[i].mode != modes[j].mode && modes[i].mode.device != modes[j].mode.device && modes[i].cache != modes[j].cache
      ensures Valid() && this.modes == modes && this.span == span && this.log == log && this.objects == objects
    {
      this.modes := modes;
      this.span := span;
      this.log := log;
      this.objects := objects;
    }

    /** The axis of motor i; the value for a motor that is not configured is arbitrary. */
    ghost function At(i: nat): (a: Axis)
      requires Valid() && i < MAX_MOTORS
      reads objects
      ensures PositionAxis.Valid(a)
    {
      if Has(i) then modes[i].State() else New(1, 1, 0.0)
    }

    ghost predicate Are(states: seq<Axis>)
      requires Valid()
      reads objects
      ensures Are(states) ==> |states| == MAX_MOTORS && forall i :: 0 <= i < MAX_MOTORS ==> PositionAxis.Valid(states[i])
    {
      |states| == MAX_MOTORS && forall i :: 0 <= i < MAX_MOTORS ==> states[i] == At(i)
    }

    /** One motor's part of the first phase. */
    method StopMotor(i: nat, frame: Frame, ghost states: seq<Axis>)
      returns (changed: bool, ghost s: Schedule, ghost now: seq<Axis>)
      requires Valid() && |frame.slots| <= UNIVERSE_SIZE && i < MAX_MOTORS && Are(states)
      modifies objects
      ensures changed == (Has(i) && Changed(states[i], frame))
      ensures now == if changed then states[i := Stopped(states[i], frame, s)] else states
      ensures log.calls == old(log.calls) + if changed then StopCalls(i, now[i].wasBusy) else []
      ensures Are(now)
    {
      s, now := Schedule([], [], [], [], []), states;
      if modes[i] == null {
        return false, s, now;
      }
      assert Has(i);
      changed, now := CompareWindow(i, frame, states);
      if changed {
        s, now := StopIfBusy(i, now);
        assert now == states[i := Stopped(states[i], frame, s)];
      }
    }

    method CompareWindow(i: nat, frame: Frame, ghost states: seq<Axis>) returns (changed: bool, ghost now: seq<Axis>)
      requires Valid() && |frame.slots| <= UNIVERSE_SIZE && Has(i) && Are(states)
      modifies objects
      ensures changed == Changed(states[i], frame) && log.calls == old(log.calls)
      ensures now == if changed then states[i := states[i].(window := Window(states[i], frame))] else states
      ensures Are(now)
    {
      changed := modes[i].IsDmxDataChanged(frame);
      now := if changed then states[i := states[i].(window := Window(states[i], frame))] else states;
    }

    method StopIfBusy(i: nat, ghost states: seq<Axis>) returns (ghost s: Schedule, ghost now: seq<Axis>)
      requires Valid() && Has(i) && Are(states)
      modifies objects
      ensures var checked := Progress(states[i].motor, s.beforeCheck);
        now == states[i := states[i].(wasBusy := checked.Busy(),
          motor := if checked.Busy() then Progress(checked, s.beforeStop).SoftStopped() else checked)]
      ensures log.calls == old(log.calls) + StopCalls(i, now[i].wasBusy)
      ensures Are(now)
    {
      ghost var beforeCheck, beforeStop := modes[i].mode.HandleBusy();
      s := Schedule(beforeCheck, beforeStop, [], [], []);
      now := states[i := modes[i].State()];
    }

    /** One motor's part of the second phase. */
    method AwaitMotor(i: nat, ghost states: seq<Axis>)
      returns (ghost waiting: seq<Tick>, ghost polls: seq<Call>, ghost now: seq<Axis>)
      requires Valid() && Has(i) && Are(states) && !states[i].motor.motion.Seeking?
      modifies objects
      ensures now == states[i := states[i].(motor := Progress(states[i].motor, waiting))] && !now[i].motor.Busy()
      ensures log.calls == old(log.calls) + polls && PollsUntilIdle(polls, i)
      ensures Are(now)
    {
      waiting, polls := modes[i].mode.device.AwaitNotBusy();
      now := states[i := states[i].(motor := modes[i].mode.device.motor)];
    }

    /** One motor's part of the third phase. */
    method SendMotor(i: nat, frame: Frame, ghost states: seq<Axis>)
      returns (ghost beforeRead: seq<Tick>, ghost beforeGo: seq<Tick>, ghost dir: Direction, ghost now: seq<Axis>)
      requires Valid() && |frame.slots| <= UNIVERSE_SIZE && Has(i) && Are(states)
      requires Accepts(states[i], frame) && Window(states[i], frame) == states[i].window
      modifies objects
      ensures now == states[i := Retargeted(states[i], Schedule([], [], [], beforeRead, beforeGo))]
      ensures log.calls == old(log.calls) + SendCalls(i, states[i].wasBusy, dir, Goal(states[i]))
      ensures Are(now)
    {
      ghost var was := modes[i].State();
      beforeRead, beforeGo, dir := modes[i].DmxData(frame);
      now := states[i := Retargeted(was, Schedule([], [], [], beforeRead, beforeGo))];
    }

    ghost predicate StoppedOne(i: nat, frame: Frame, before: Axis, changed: bool, s: Schedule, part: seq<Call>, now: Axis)
      requires PositionAxis.Valid(before)
    {
      && changed == (Has(i) && Changed(before, frame))
      && now == (if changed then Stopped(before, frame, s) else before)
      && part == if changed then StopCalls(i, now.wasBusy) else []
    }

    /** Part of the way through the first phase: the motors before i have been looked at. */
    ghost predicate StoppedUpTo(i: nat, frame: Frame, before: seq<Axis>, changed: seq<bool>, stops: seq<Schedule>,
                                parts: seq<seq<Call>>, now: seq<Axis>) {
      && |stops| == |changed| == |parts| == i <= MAX_MOTORS == |before| == |now|
      && (forall j :: 0 <= j < MAX_MOTORS ==> PositionAxis.Valid(before[j]))
      && (forall j :: 0 <= j < i ==> StoppedOne(j, frame, before[j], changed[j], stops[j], parts[j], now[j]))
      && forall j :: i <= j < MAX_MOTORS ==> now[j] == before[j]
    }

    lemma StoppedNext(i: nat, frame: Frame, before: seq<Axis>, changed: seq<bool>, stops: seq<Schedule>,
                      parts: seq<seq<Call>>, now: seq<Axis>, isChanged: bool, s: Schedule)
      requires StoppedUpTo(i, frame, before, changed, stops, parts, now) && i < MAX_MOTORS
      requires isChanged == (Has(i) && Changed(before[i], frame))
      ensures var next := if isChanged then now[i := Stopped(before[i], frame, s)] else now;
        StoppedUpTo(i + 1, frame, before, changed + [isChanged], stops + [s],
                    parts + [if isChanged then StopCalls(i, next[i].wasBusy) else []], next)
    {
    }

    /** First phase: every motor whose window changed is told to stop if it is busy. */
    method StopChanged(frame: Frame, ghost before: seq<Axis>)
      returns (changed: seq<bool>, ghost stops: seq<Schedule>, ghost parts: seq<seq<Call>>, ghost now: seq<Axis>)
      requires Valid() && |frame.slots| <= UNIVERSE_SIZE && Are(before)
      modifies objects
      ensures |changed| == |stops| == |parts| == MAX_MOTORS && Are(now)
      ensures log.calls == old(log.calls) + Flat(parts)
      ensures forall j :: 0 <= j < MAX_MOTORS ==>
        && changed[j] == (Has(j) && Changed(before[j], frame))
        && now[j] == (if changed[j] then Stopped(before[j], frame, stops[j]) else before[j])
        && parts[j] == if changed[j] then StopCalls(j, now[j].wasBusy) else []
    {
      changed, stops, parts, now := [], [], [], before;
      for i := 0 to MAX_MOTORS
        invariant StoppedUpTo(i, frame, before, changed, stops, parts, now) && Are(now)
        invariant log.calls == old(log.calls) + Flat(parts)
      {
        var isChanged;
        ghost var s;
        ghost var last := now;
        isChanged, s, now := StopMotor(i, frame, now);
        ghost var part := if isChanged then StopCalls(i, now[i].wasBusy) else [];
        StoppedNext(i, frame, before, changed, stops, parts, last, isChanged, s);
        FlatAppend(old(log.calls), parts, part);
        changed, stops, parts := changed + [isChanged], stops + [s], parts + [part];
      }
    }

    /** Second phase: wait for each of those motors until it is not busy. */
    method AwaitChanged(changed: seq<bool>, ghost before: seq<Axis>)
      returns (ghost waits: seq<seq<Tick>>, ghost parts: seq<seq<Call>>, ghost now: seq<Axis>)
      requires Valid() && |changed| == MAX_MOTORS && Are(before)
      requires forall j :: 0 <= j < MAX_MOTORS && changed[j] ==> Has(j) && !before[j].motor.motion.Seeking?
      modifies objects
      ensures |waits| == |parts| == MAX_MOTORS && Are(now)
      ensures log.calls == old(log.calls) + Flat(parts)
      ensures forall j :: 0 <= j < MAX_MOTORS ==>
        if changed[j] then
          && now[j] == before[j].(motor := Progress(before[j].motor, waits[j])) && !now[j].motor.Busy()
          && PollsUntilIdle(parts[j], j)
        else now[j] == before[j] && parts[j] == []
    {
      waits, parts, now := [], [], before;
      for i := 0 to MAX_MOTORS
        invariant |waits| == |parts| == i && Are(now)
        invariant log.calls == old(log.calls) + Flat(parts)
        invariant forall j :: 0 <= j < i ==>
          if changed[j] then
            && now[j] == before[j].(motor := Progress(before[j].motor, waits[j])) && !now[j].motor.Busy()
            && PollsUntilIdle(parts[j], j)
          else now[j] == before[j] && parts[j] == []
        invariant forall j :: i <= j < MAX_MOTORS ==> now[j] == before[j]
      {
        ghost var waiting, polls := [], [];
        if changed[i] {
          waiting, polls, now := AwaitMotor(i, now);
        }
        FlatAppend(old(log.calls), parts, polls);
        waits, parts := waits + [waiting], parts + [polls];
      }
    }

    /** Part of the way through the third phase: the marked motors before i have been sent. */
    ghost predicate SentUpTo(i: nat, changed: seq<bool>, before: seq<Axis>, readings: seq<seq<Tick>>, goes: seq<seq<Tick>>,
                             dirs: seq<Direction>, parts: seq<seq<Call>>, now: seq<Axis>) {
      && |readings| == |goes| == |dirs| == |parts| == i <= MAX_MOTORS == |changed| == |before| == |now|
      && (forall j :: 0 <= j < MAX_MOTORS ==> PositionAxis.Valid(before[j]))
      && (forall j :: 0 <= j < i ==>
            if changed[j] then
              && now[j] == Retargeted(before[j], Schedule([], [], [], readings[j], goes[j]))
              && parts[j] == SendCalls(j, before[j].wasBusy, dirs[j], Goal(before[j]))
            else now[j] == before[j] && parts[j] == [])
      && forall j :: i <= j < MAX_MOTORS ==> now[j] == before[j]
    }

    lemma SentNext(i: nat, changed: seq<bool>, before: seq<Axis>, readings: seq<seq<Tick>>, goes: seq<seq<Tick>>,
                   dirs: seq<Direction>, parts: seq<seq<Call>>, now: seq<Axis>,
                   beforeRead: seq<Tick>, beforeGo: seq<Tick>, dir: Direction)
      requires SentUpTo(i, changed, before, readings, goes, dirs, parts, now) && i < MAX_MOTORS
      ensures var next := if changed[i] then now[i := Retargeted(before[i], Schedule([], [], [], beforeRead, beforeGo))] else now;
        SentUpTo(i + 1, changed, before, readings + [beforeRead], goes + [beforeGo], dirs + [dir],
                 parts + [if changed[i] then SendCalls(i, before[i].wasBusy, dir, Goal(before[i])) else []], next)
    {
    }

    lemma AllSentAtTheEnd(changed: seq<bool>, before: seq<Axis>, readings: seq<seq<Tick>>, goes: seq<seq<Tick>>,
                          dirs: seq<Direction>, parts: seq<seq<Call>>, now: seq<Axis>)
      requires SentUpTo(MAX_MOTORS, changed, before, readings, goes, dirs, parts, now)
      ensures AllSent(before, changed, readings, goes, now) && SendParts(parts, changed, FoundBusy(before), dirs, Goals(before))
    {
    }

    /** Third phase: send each of those motors to its new position. */
    method SendChanged(frame: Frame, changed: seq<bool>, ghost before: seq<Axis>)
      returns (ghost readings: seq<seq<Tick>>, ghost goes: seq<seq<Tick>>, ghost dirs: seq<Direction>,
               ghost parts: seq<seq<Call>>, ghost now: seq<Axis>)
      requires Valid() && |frame.slots| <= UNIVERSE_SIZE && |changed| == MAX_MOTORS && Are(before)
      requires forall j :: 0 <= j < MAX_MOTORS && changed[j] ==>
        Has(j) && Accepts(before[j], frame) && Window(before[j], frame) == before[j].window
      modifies objects
      ensures Are(now) && AllSent(before, changed, readings, goes, now)
      ensures log.calls == old(log.calls) + Flat(parts)
      ensures SendParts(parts, changed, FoundBusy(before), dirs, Goals(before))
    {
      readings, goes, dirs, parts, now := [], [], [], [], before;
      for i := 0 to MAX_MOTORS
        invariant SentUpTo(i, changed, before, readings, goes, dirs, parts, now) && Are(now)
        invariant log.calls == old(log.calls) + Flat(parts)
      {
        ghost var beforeRead, beforeGo, dir, part := [], [], Forward, [];
        ghost var last := now;
        if changed[i] {
          beforeRead, beforeGo, dir, now := SendMotor(i, frame, now);
          part := SendCalls(i, before[i].wasBusy, dir, Goal(before[i]));
        }
        SentNext(i, changed, before, readings, goes, dirs, parts, last, beforeRead, beforeGo, dir);
        FlatAppend(old(log.calls), parts, part);
        readings, goes, dirs, parts := readings + [beforeRead], goes + [beforeGo], dirs + [dir], parts + [part];
      }
      AllSentAtTheEnd(changed, before, readings, goes, dirs, parts, now);
    }

    /** The first two phases: afterwards the motors whose window changed are not busy. */
    method StopAndAwait(frame: Frame, ghost before: seq<Axis>)
      returns (changed: seq<bool>, ghost stops: seq<Schedule>, ghost waits: seq<seq<Tick>>,
               ghost stopParts: seq<seq<Call>>, ghost pollParts: seq<seq<Call>>, ghost barrier: seq<Axis>)
      requires Valid() && |frame.slots| <= UNIVERSE_SIZE && Are(before)
      modifies objects
      ensures |changed| == MAX_MOTORS && Are(barrier)
      ensures forall j :: 0 <= j < MAX_MOTORS ==> changed[j] == (Has(j) && Changed(before[j], frame))
      ensures AllWaited(before, frame, changed, stops, waits, barrier)
      ensures log.calls == old(log.calls) + Flat(stopParts) + Flat(pollParts)
      ensures StopParts(stopParts, changed, FoundBusy(barrier)) && PollParts(pollParts, changed)
    {
      ghost var now;
      changed, stops, stopParts, now := StopChanged(frame, before);
      forall j | 0 <= j < MAX_MOTORS && changed[j] ensures !now[j].motor.motion.Seeking? {
        PhasesCompose(before[j], frame, stops[j], [], stops[j].(waiting := []));
      }
      waits, pollParts, barrier := AwaitChanged(changed, now);
    }

    /** The three phases of SetData.  Each motor's part is the one prescribed for it alone, `barrier` being
        its state between the second and the third phase; and the calls of all motors keep the order: all
        stops, then the waits, and only then the first motor is sent anywhere. */
    method SetData(frame: Frame, ghost before: seq<Axis>)
      returns (ghost barrier: seq<Axis>, ghost after: seq<Axis>, ghost schedules: seq<Schedule>,
               ghost calls: seq<Call>, ghost changed: seq<bool>, ghost targets: seq<nat>)
      requires Valid() && |frame.slots| <= UNIVERSE_SIZE && Are(before)
      modifies objects
      ensures |barrier| == |schedules| == |changed| == |targets| == MAX_MOTORS && Are(after)
      ensures forall i :: Has(i) ==> Handled(before[i], frame, schedules[i], barrier[i], after[i])
      ensures forall i :: 0 <= i < MAX_MOTORS ==>
        && changed[i] == (Has(i) && Changed(before[i], frame))
        && (changed[i] ==> before[i].width in {1, 2} && before[i].start + before[i].width <= |frame.slots|
                           && AsksFor(frame, before[i].start, before[i].width, before[i].scale, targets[i]))
      ensures log.calls == old(log.calls) + calls && StopsWaitsSends(calls, changed, FoundBusy(barrier), targets)
    {
      var marked;
      ghost var stops, waits, readings, goes, dirs, stopParts, pollParts, sendParts;
      marked, stops, waits, stopParts, pollParts, barrier := StopAndAwait(frame, before);
      forall j | 0 <= j < MAX_MOTORS && marked[j]
        ensures Accepts(barrier[j], frame) && Window(barrier[j], frame) == barrier[j].window
        ensures Goal(barrier[j]) == Steps(before[j].scale, Value(Window(before[j], frame)))
      {
        WaitedKeepsWindow(before[j], frame, stops[j], waits[j], barrier[j]);
      }
      readings, goes, dirs, sendParts, after := SendChanged(frame, marked, barrier);
      changed, targets, schedules := marked, Goals(barrier), Schedules(stops, waits, readings, goes);
      calls := Flat(stopParts) + Flat(pollParts) + Flat(sendParts);
      FrameInOrder(stopParts, pollParts, sendParts, changed, FoundBusy(barrier), dirs, targets);
      JoinedLog(old(log.calls), Flat(stopParts), Flat(pollParts), Flat(sendParts));
      forall i | 0 <= i < MAX_MOTORS && changed[i]
        ensures before[i].width in {1, 2} && before[i].start + before[i].width <= |frame.slots|
        ensures AsksFor(frame, before[i].start, before[i].width, before[i].scale, targets[i])
      {
        StepsOfWindow(before[i], frame, targets[i]);
      }
      forall i | Has(i)
        ensures Handled(before[i], frame, schedules[i], barrier[i], after[i])
      {
        MotorHandled(before, frame, changed, stops, waits, barrier, readings, goes, after, i);
      }
    }

    /** The board as a member of a chain sees it: its slots and those of its motors. */
    ghost function Addresses(): (v: LightSets.View)
      requires Valid()
      reads this, objects
      ensures v.span == span && |v.motors| == MAX_MOTORS
      ensures forall i :: 0 <= i < MAX_MOTORS ==> v.motors[i] == MotorAddress(i)
    {
      LightSets.View(LightSets.Board, span, seq(MAX_MOTORS, i requires 0 <= i < MAX_MOTORS reads objects => MotorAddress(i)))
    }

    ghost function MotorAddress(i: nat): LightSets.Motor
      requires Valid() && i < MAX_MOTORS
      reads objects
    {
      if Has(i) then LightSets.Present(AddressHull.Span(modes[i].start, modes[i].mode.width)) else LightSets.Absent
    }

    /** Moves the windows of all motors, and nothing else of them. */
    method SetDmxStartAddress(to: Word, ghost before: seq<Axis>) returns (done: bool, ghost after: seq<Axis>)
      requires Valid() && Are(before)
      modifies this`span, objects
      ensures done && Are(after) && log.calls == old(log.calls)
      ensures Addresses() == LightSets.Readdressed(old(Addresses()), to)
      ensures forall i :: 0 <= i < MAX_MOTORS ==>
        after[i] == if Has(i) && to != old(span.start)
                    then Step(before[i], Readdress(AddressHull.Moved(old(modes[i].start), old(span.start), to)))
                    else before[i]
    {
      after := before;
      if to == span.start {
        return true, after;
      }
      for i := 0 to MAX_MOTORS
        invariant Are(after) && span == old(span) && log.calls == old(log.calls)
        invariant forall j :: 0 <= j < MAX_MOTORS ==>
          after[j] == if j < i && Has(j)
                      then Step(before[j], Readdress(AddressHull.Moved(old(modes[j].start), span.start, to)))
                      else before[j]
      {
        if modes[i] != null {
          assert Has(i) && modes[i].start == after[i].start == old(modes[i].start);
          after := MoveWindow(i, AddressHull.Moved(modes[i].start, span.start, to), after);
        }
      }
      forall i | 0 <= i < MAX_MOTORS
        ensures MotorAddress(i) == LightSets.MotorMoved(old(MotorAddress(i)), span.start, to)
      {
        assert Has(i) ==> modes[i].start == after[i].start;
      }
      span := AddressHull.Span(to, span.footprint);
      done := true;
    }

    method MoveWindow(i: nat, start: Word, ghost states: seq<Axis>) returns (ghost now: seq<Axis>)
      requires Valid() && Has(i) && Are(states)
      modifies objects
      ensures now == states[i := Step(states[i], Readdress(start))] && Are(now) && log.calls == old(log.calls)
    {
      modes[i].SetDmxStartAddress(start);
      now := states[i := Step(states[i], Readdress(start))];
    }
  }
}
