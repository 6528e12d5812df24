/** One motor in mode 3, 4 or 5, as a value: what its mode object and its window cache
    remember, and what one DMX frame does to it. */
module PositionAxis {
  import opened Dmx
  import opened StepperMotor

  /** `window` caches the last window seen, `previous` the last value delivered. */
  datatype Axis = Axis(
    start: nat,
    width: nat,
    scale: real,
    window: seq<Slot>,
    previous: nat,
    wasBusy: bool,
    motor: Motor)

  ghost predicate Valid(a: Axis) {
    && (a.width == 1 || a.width == 2)
    && a.scale >= 0.0
    && |a.window| == a.width
  }

  /** Modes 3 and 4 read one slot; mode 5 reads two, the first one the high byte. */
  function Value(window: seq<Slot>): (v: nat)
    requires |window| == 1 || |window| == 2
    ensures |window| == 1 ==> v == window[0]
    ensures |window| == 2 ==> v / 256 == window[0] && v % 256 == window[1]
  {
    var first: int := window[0];
    if |window| == 1 then first else first * 256 + window[1]
  }

  function MaxValue(width: nat): nat {
    if width == 1 then 0xFF else 0xFFFF
  }

  function Steps(scale: real, value: nat): nat
    requires scale >= 0.0
  {
    (value as real * scale).Floor
  }

  /** The farthest position the axis can be sent to. */
  function Travel(a: Axis): nat
    requires a.scale >= 0.0
  {
    Steps(a.scale, MaxValue(a.width))
  }

  lemma StepsMonotone(scale: real, v: nat, w: nat)
    requires scale >= 0.0 && v <= w
    ensures Steps(scale, v) <= Steps(scale, w)
  {
  }

  /** The position of the cached window's value. */
  function Goal(a: Axis): nat
    requires Valid(a)
  {
    Steps(a.scale, Value(a.window))
  }

  /** The scales of the three modes. */
  function ScaleOfMode3(stepMode: nat, stepAngle: real): real
    requires stepMode < 8 && stepAngle > 0.0
  {
    (360 * MicroSteps(stepMode)) as real / stepAngle / 255.0
  }

  function ScaleOfMode4(maxSteps: nat): real {
    maxSteps as real / 255.0
  }

  function ScaleOfMode5(maxSteps: nat): real {
    maxSteps as real / 65535.0
  }

  function MicroSteps(stepMode: nat): nat {
    if stepMode == 0 then 1 else 2 * MicroSteps(stepMode - 1)
  }

  /** Full scale is exactly the configured number of steps in modes 4 and 5, and exactly one
      revolution in mode 3: steps * stepAngle spans 360 degrees of microsteps. */
  lemma FullScale(maxSteps: nat, stepMode: nat, stepAngle: real)
    requires stepMode < 8 && stepAngle > 0.0
    ensures Steps(ScaleOfMode4(maxSteps), MaxValue(1)) == maxSteps
    ensures Steps(ScaleOfMode5(maxSteps), MaxValue(2)) == maxSteps
    ensures ScaleOfMode3(stepMode, stepAngle) >= 0.0
    ensures Steps(ScaleOfMode3(stepMode, stepAngle), MaxValue(1))
            == ((360 * MicroSteps(stepMode)) as real / stepAngle).Floor
  {
  }

  /** Both guards of the source ask for one slot more than the window needs. */
  predicate Accepts(a: Axis, frame: Frame) {
    |frame.slots| >= a.start + a.width
  }

  function Window(a: Axis, frame: Frame): (w: seq<Slot>)
    requires Valid(a) && Accepts(a, frame)
    ensures |w| == a.width
  {
    frame.Memory()[a.start..a.start + a.width]
  }

  /** A frame is ignored although it holds the window up to its end exactly when the window ends on the
      frame's last slot. */
  lemma IgnoredLastWindow(a: Axis, frame: Frame)
    requires Valid(a)
    ensures a.start + a.width - 1 <= |frame.slots| && !Accepts(a, frame)
            <==> |frame.slots| == a.start + a.width - 1
  {
  }

  /** An accepted window holds nothing but slots of the frame exactly when the start address is not 0. */
  lemma ReadsInsideFrame(a: Axis, frame: Frame)
    requires Valid(a) && Accepts(a, frame)
    ensures (forall front: Slot :: Window(a, frame.(front := front)) == Window(a, frame)) <==> a.start >= 1
  {
    if a.start == 0 {
      var other: Slot := if frame.front == 0 then 1 else 0;
      assert Window(a, frame.(front := other))[0] != Window(a, frame)[0];
    } else {
      WindowInside(a, frame);
      forall front: Slot ensures Window(a, frame.(front := front)) == Window(a, frame) {
        WindowInside(a, frame.(front := front));
      }
    }
  }

  lemma WindowInside(a: Axis, frame: Frame)
    requires Valid(a) && Accepts(a, frame) && a.start >= 1
    ensures Window(a, frame) == frame.slots[a.start - 1..a.start - 1 + a.width]
  {
    Shifted(frame.front, frame.slots, a.start, a.start + a.width);
  }

  lemma Shifted(front: Slot, slots: seq<Slot>, from: nat, to: nat)
    requires 1 <= from <= to <= |slots| + 1
    ensures ([front] + slots)[from..to] == slots[from - 1..to - 1]
  {
  }

  /** The target a frame asks of a window of 1 or 2 slots, told from the slots themselves: the number they
      spell, high byte first, times the scale, rounded down.  Slot 0 is the byte in front. */
  ghost predicate AsksFor(frame: Frame, start: nat, width: nat, scale: real, target: nat)
    requires 1 <= width && start + width <= |frame.slots|
  {
    var spelled := Spelled(frame, start, width);
    target as real <= spelled as real * scale < (target + 1) as real
  }

  ghost function Spelled(frame: Frame, start: nat, width: nat): nat
    requires 1 <= width && start + width <= |frame.slots|
  {
    var first: int := if start == 0 then frame.front else frame.slots[start - 1];
    if width == 1 then first else first * 256 + frame.slots[start]
  }

  /** The position computed for the window of an accepted frame is the one its slots ask for, and no other is. */
  lemma StepsOfWindow(a: Axis, frame: Frame, target: nat)
    requires Valid(a) && Accepts(a, frame)
    ensures AsksFor(frame, a.start, a.width, a.scale, target) <==> target == Steps(a.scale, Value(Window(a, frame)))
  {
    SlotsOfWindow(a, frame);
    assert Steps(a.scale, Value(Window(a, frame))) == Steps(a.scale, Spelled(frame, a.start, a.width));
    FloorIff(Spelled(frame, a.start, a.width), a.scale, target);
  }

  lemma SlotsOfWindow(a: Axis, frame: Frame)
    requires Valid(a) && Accepts(a, frame)
    ensures Window(a, frame)[0] == if a.start == 0 then frame.front else frame.slots[a.start - 1]
    ensures a.width == 2 ==> Window(a, frame)[1] == frame.slots[a.start]
    ensures Value(Window(a, frame)) == Spelled(frame, a.start, a.width)
  {
    SlotAt(frame, a.start);
  }

  lemma SlotAt(frame: Frame, k: nat)
    requires k <= |frame.slots|
    ensures frame.Memory()[k] == if k == 0 then frame.front else frame.slots[k - 1]
    ensures k < |frame.slots| ==> frame.Memory()[k + 1] == frame.slots[k]
  {
  }

  lemma FloorIff(value: nat, scale: real, n: nat)
    requires scale >= 0.0
    ensures n as real <= value as real * scale < (n + 1) as real <==> n == Steps(scale, value)
  {
  }

  predicate Changed(a: Axis, frame: Frame)
    requires Valid(a)
  {
    Accepts(a, frame) && Window(a, frame) != a.window
  }

  /** A window has changed exactly if the frame is long enough and one of its slots differs from what the cache holds. */
  lemma ChangedIff(a: Axis, frame: Frame)
    requires Valid(a)
    ensures Changed(a, frame)
       <==> |frame.slots| >= a.start + a.width
            && (a.window[0] != (if a.start == 0 then frame.front else frame.slots[a.start - 1])
                || (a.width == 2 && a.window[1] != frame.slots[a.start]))
  {
    if Accepts(a, frame) {
      SlotsOfWindow(a, frame);
    }
  }

  /** The ticks that pass before each access of the motor while a frame is handled. */
  datatype Schedule = Schedule(
    beforeCheck: seq<Tick>,
    beforeStop: seq<Tick>,
    waiting: seq<Tick>,
    beforeRead: seq<Tick>,
    beforeGo: seq<Tick>)

  /** First phase: the window is cached and a motor that is busy is soft-stopped. */
  function Stopped(a: Axis, frame: Frame, s: Schedule): (r: Axis)
    requires Valid(a) && Changed(a, frame)
    ensures Valid(r)
  {
    var checked := Progress(a.motor, s.beforeCheck);
    a.(window := Window(a, frame),
       wasBusy := checked.Busy(),
       motor := if checked.Busy() then Progress(checked, s.beforeStop).SoftStopped() else checked)
  }

  /** Second phase: the motor is polled until it no longer reports busy. */
  function Quiesced(a: Axis, frame: Frame, s: Schedule): (r: Axis)
    requires Valid(a) && Changed(a, frame)
    ensures Valid(r)
  {
    var stopped := Stopped(a, frame, s);
    stopped.(motor := Progress(stopped.motor, s.waiting))
  }

  /** getPos is stored in a uint32_t. */
  function AsUint32(p: int): (r: nat)
    ensures 0 <= p < 0x1_0000_0000 ==> r == p
    ensures -0x1_0000_0000 <= p < 0 ==> r == 0x1_0000_0000 + p
  {
    p % 0x1_0000_0000
  }

  /** Third phase: the direction is chosen and the motor is sent to the new position. */
  function Retargeted(a: Axis, s: Schedule): (r: Axis)
    requires Valid(a)
    ensures Valid(r)
  {
    var value := Value(a.window);
    var steps := Steps(a.scale, value);
    var read := if a.wasBusy then Progress(a.motor, s.beforeRead) else a.motor;
    var isReverse := if a.wasBusy then AsUint32(read.SignedPos()) > steps else a.previous > value;
    a.(previous := value,
       motor := Progress(read, s.beforeGo).Sent(if isReverse then Reverse else Forward, steps))
  }

  function Delivered(a: Axis, frame: Frame, s: Schedule): (r: Axis)
    requires Valid(a)
    ensures Valid(r)
  {
    if Changed(a, frame) then Retargeted(Quiesced(a, frame, s), s) else a
  }

  /** The waiting loop has ended: the motor does not report busy. */
  predicate Settled(a: Axis, frame: Frame, s: Schedule)
    requires Valid(a)
  {
    Changed(a, frame) ==> !Quiesced(a, frame, s).motor.Busy()
  }

  /** The state between the second and the third phase. */
  function AtBarrier(a: Axis, frame: Frame, s: Schedule): (r: Axis)
    requires Valid(a)
    ensures Valid(r)
  {
    if Changed(a, frame) then Quiesced(a, frame, s) else a
  }

  /** Each phase depends on its own part of the schedule only. */
  lemma PhasesCompose(a: Axis, frame: Frame, stops: Schedule, waiting: seq<Tick>, s: Schedule)
    requires Valid(a) && Changed(a, frame)
    requires s == Schedule(stops.beforeCheck, stops.beforeStop, waiting, s.beforeRead, s.beforeGo)
    ensures var stopped := Stopped(a, frame, stops); var q := Quiesced(a, frame, s);
      && !stopped.motor.motion.Seeking?
      && q == stopped.(motor := Progress(stopped.motor, waiting))
      && Accepts(q, frame) && Window(q, frame) == q.window
      && Retargeted(q, s) == Retargeted(q, Schedule([], [], [], s.beforeRead, s.beforeGo))
      && Delivered(a, frame, s) == Retargeted(q, s)
  {
  }

  /** A motor whose window changed has been stopped and waited for. */
  ghost predicate Waited(a: Axis, frame: Frame, stops: Schedule, waiting: seq<Tick>, q: Axis) {
    && Valid(a) && Changed(a, frame)
    && q == Stopped(a, frame, stops).(motor := Progress(Stopped(a, frame, stops).motor, waiting))
    && !q.motor.Busy()
  }

  lemma WaitedKeepsWindow(a: Axis, frame: Frame, stops: Schedule, waiting: seq<Tick>, q: Axis)
    requires Waited(a, frame, stops, waiting, q)
    ensures Valid(q) && Accepts(q, frame) && Window(q, frame) == q.window && Goal(q) == Steps(a.scale, Value(Window(a, frame)))
  {
  }

  /** The phases of one motor, seen from outside: what happens at the barrier and after. */
  lemma PhasesDeliver(a: Axis, frame: Frame, stops: Schedule, s: Schedule, barrier: Axis, after: Axis)
    requires Waited(a, frame, stops, s.waiting, barrier) && Valid(barrier)
    requires s.beforeCheck == stops.beforeCheck && s.beforeStop == stops.beforeStop
    requires after == Retargeted(barrier, Schedule([], [], [], s.beforeRead, s.beforeGo))
    ensures barrier == AtBarrier(a, frame, s) && Settled(a, frame, s) && after == Delivered(a, frame, s)
    ensures OnTrack(a) ==> OnTrack(after)
  {
    PhasesCompose(a, frame, stops, s.waiting, s);
    if OnTrack(a) {
      FrameMomentsInside(a, frame, s);
    }
  }

  /** What holds whenever no frame is being handled: the cache holds the value delivered
      last, and the motor rests at, or heads for, the position of that value. */
  ghost predicate OnTrack(a: Axis) {
    && Valid(a)
    && a.previous == Value(a.window)
    && Inside(a.motor, Travel(a))
    && match a.motor.motion
       case Resting => a.motor.shaft == Steps(a.scale, a.previous)
       case Seeking(dir, target) => target == Steps(a.scale, a.previous)
       case Stopping(dir, target) => false
  }

  /** A new axis: zeroed cache, motor at rest at position zero. */
  function New(start: nat, width: nat, scale: real): Axis {
    Axis(start, width, scale, seq(width, _ => 0), 0, false, Motor(0, Resting))
  }

  lemma NewIsOnTrack(start: nat, width: nat, scale: real)
    requires (width == 1 || width == 2)
    requires scale >= 0.0 && Steps(scale, MaxValue(width)) < COUNTER_HALF
    ensures OnTrack(New(start, width, scale))
  {
  }

  lemma ValueInRange(window: seq<Slot>)
    requires |window| == 1 || |window| == 2
    ensures Value(window) <= MaxValue(|window|)
  {
  }

  /** Time alone keeps an axis on track. */
  lemma {:induction false} TimeKeepsTrack(a: Axis, ticks: seq<Tick>)
    requires OnTrack(a)
    ensures OnTrack(a.(motor := Progress(a.motor, ticks)))
    decreases |ticks|
  {
    if ticks != [] {
      TimeKeepsTrack(a.(motor := a.motor.Next(ticks[0])), ticks[1..]);
    }
  }

  /** After the wait the motor rests inside its travel; if it was not busy at the first
      check, it rests exactly where the value delivered last had sent it. */
  lemma QuiescedRests(a: Axis, frame: Frame, s: Schedule)
    requires OnTrack(a) && Changed(a, frame) && Settled(a, frame, s)
    ensures var q := Quiesced(a, frame, s);
      && Inside(q.motor, Travel(a)) && q.motor.motion == Resting
      && (!q.wasBusy ==> q.motor.shaft == Steps(a.scale, a.previous))
  {
    TimeKeepsTrack(a, s.beforeCheck);
    var checked := Progress(a.motor, s.beforeCheck);
    InsideAtEveryMoment(checked, s.beforeStop, Travel(a));
    if checked.Busy() {
      InsideAtEveryMoment(Progress(checked, s.beforeStop).SoftStopped(), s.waiting, Travel(a));
    } else {
      RestingStays(checked, s.waiting);
    }
  }

  lemma RetargetedFromRest(q: Axis, s: Schedule)
    requires Valid(q) && q.motor.motion == Resting && Inside(q.motor, Travel(q))
    requires q.wasBusy || q.motor.shaft == Steps(q.scale, q.previous)
    ensures var r := Retargeted(q, s);
      && r.motor.shaft == q.motor.shaft
      && r.motor.motion.Seeking?
      && r.motor.motion.target == Steps(q.scale, Value(q.window)) <= Travel(q)
      && Toward(q.motor.shaft, r.motor.motion.dir, r.motor.motion.target)
  {
    RestingStays(q.motor, s.beforeRead);
    RestingStays(q.motor, s.beforeGo);
    ValueInRange(q.window);
    StepsMonotone(q.scale, Value(q.window), MaxValue(q.width));
    RestIsBelow(q);
    ReverseLeadsToTarget(q.motor.shaft, q.scale, q.previous, Value(q.window), q.wasBusy);
  }

  lemma RestIsBelow(q: Axis)
    requires Valid(q) && q.motor.motion == Resting && Inside(q.motor, Travel(q))
    ensures AsUint32(q.motor.SignedPos()) == q.motor.shaft
  {
  }

  /** The comparison with the position read, or with the previous value, says on which side the target lies. */
  lemma ReverseLeadsToTarget(shaft: nat, scale: real, previous: nat, value: nat, wasBusy: bool)
    requires scale >= 0.0 && (wasBusy || shaft == Steps(scale, previous))
    ensures var target := Steps(scale, value);
      Toward(shaft, if (if wasBusy then shaft > target else previous > value) then Reverse else Forward, target)
  {
  }

  /** Whichever way it is chosen, the commanded direction is the one in which the new
      position lies, and the command is accepted. */
  lemma RetargetedTowardGoal(a: Axis, frame: Frame, s: Schedule)
    requires OnTrack(a) && Changed(a, frame) && Settled(a, frame, s)
    ensures var q := Quiesced(a, frame, s); var r := Retargeted(q, s);
      && r.motor.motion.Seeking?
      && r.motor.shaft == q.motor.shaft
      && r.motor.motion.target == Steps(a.scale, Value(Window(a, frame)))
      && Toward(q.motor.shaft, r.motor.motion.dir, r.motor.motion.target)
      && OnTrack(r)
  {
    QuiescedRests(a, frame, s);
    RetargetedFromRest(Quiesced(a, frame, s), s);
  }

  /** Frames, new start addresses and the passing of time, in any order. */
  datatype Event = Elapse(ticks: seq<Tick>) | Readdress(start: nat) | Receive(frame: Frame, schedule: Schedule)

  function Step(a: Axis, e: Event): (r: Axis)
    requires Valid(a)
    ensures Valid(r)
  {
    match e
    case Elapse(ticks) => a.(motor := Progress(a.motor, ticks))
    case Readdress(start) => a.(start := start)
    case Receive(frame, s) => Delivered(a, frame, s)
  }

  function Run(a: Axis, events: seq<Event>): Axis
    requires Valid(a)
    decreases |events|
  {
    if events == [] then a else Run(Step(a, events[0]), events[1..])
  }

  /** A frame that says what the last one said leaves the motor alone. */
  lemma RepeatedFrame(a: Axis, frame: Frame, again: Frame, s: Schedule, t: Schedule)
    requires Valid(a) && Accepts(a, frame) && Accepts(a, again) && Window(a, again) == Window(a, frame)
    ensures Delivered(Delivered(a, frame, s), again, t) == Delivered(a, frame, s)
  {
  }

  /** Every wait in the run has ended. */
  predicate AllSettled(a: Axis, events: seq<Event>)
    requires Valid(a)
    decreases |events|
  {
    events != [] ==>
      && (events[0].Receive? ==> Settled(a, events[0].frame, events[0].schedule))
      && AllSettled(Step(a, events[0]), events[1..])
  }

  /** Every state the motor passes through while a frame is handled. */
  function FrameMoments(a: Axis, frame: Frame, s: Schedule): seq<Motor>
    requires Valid(a)
  {
    if !Changed(a, frame) then [a.motor]
    else
      var stopped := Stopped(a, frame, s).motor;
      var q := Quiesced(a, frame, s).motor;
      Moments(a.motor, s.beforeCheck) + Moments(Progress(a.motor, s.beforeCheck), s.beforeStop)
        + Moments(stopped, s.waiting)
        + Moments(q, s.beforeRead) + Moments(q, s.beforeGo) + [Delivered(a, frame, s).motor]
  }

  function RunMoments(a: Axis, events: seq<Event>): seq<Motor>
    requires Valid(a)
    decreases |events|
  {
    if events == [] then [a.motor]
    else
      (match events[0]
       case Elapse(ticks) => Moments(a.motor, ticks)
       case Readdress(_) => [a.motor]
       case Receive(frame, s) => FrameMoments(a, frame, s))
      + RunMoments(Step(a, events[0]), events[1..])
  }

  lemma FrameMomentsInside(a: Axis, frame: Frame, s: Schedule)
    requires OnTrack(a) && Settled(a, frame, s)
    ensures OnTrack(Delivered(a, frame, s))
    ensures forall m :: m in FrameMoments(a, frame, s) ==> Inside(m, Travel(a))
  {
    if Changed(a, frame) {
      var travel := Travel(a);
      InsideAtEveryMoment(a.motor, s.beforeCheck, travel);
      InsideAtEveryMoment(Progress(a.motor, s.beforeCheck), s.beforeStop, travel);
      InsideAtEveryMoment(Stopped(a, frame, s).motor, s.waiting, travel);
      var q := Quiesced(a, frame, s).motor;
      InsideAtEveryMoment(q, s.beforeRead, travel);
      InsideAtEveryMoment(q, s.beforeGo, travel);
      RetargetedTowardGoal(a, frame, s);
    }
  }

  /** Motion safety over whole runs: from a fresh motor, whatever frames arrive, whatever start addresses
      are set, and however the motor progresses between and within them, at no moment does the shaft leave
      0..travel, does the counter wrap, or is a motion under way that does not lead to its
      target. */
  lemma {:induction false} RunIsSafe(a: Axis, events: seq<Event>)
    requires OnTrack(a) && AllSettled(a, events)
    ensures OnTrack(Run(a, events))
    ensures forall m :: m in RunMoments(a, events) ==> Inside(m, Travel(a))
    decreases |events|
  {
    if events != [] {
      match events[0] {
        case Elapse(ticks) =>
          TimeKeepsTrack(a, ticks);
          InsideAtEveryMoment(a.motor, ticks, Travel(a));
        case Readdress(_) =>
        case Receive(frame, s) =>
          FrameMomentsInside(a, frame, s);
      }
      RunIsSafe(Step(a, events[0]), events[1..]);
    }
  }

  /** The start address after a run. */
  function StartAfter(a: Axis, events: seq<Event>): nat {
    if events == [] then a.start
    else
      var last := events[|events| - 1];
      if last.Readdress? then last.start else StartAfter(a, events[..|events| - 1])
  }

  /** The value a run has asked for last: that of the last frame accepted, at the address of that time, or
      the initial one. */
  function LastValue(a: Axis, events: seq<Event>): nat
    requires Valid(a)
    decreases |events|
  {
    if events == [] then Value(a.window)
    else
      var before, last := events[..|events| - 1], events[|events| - 1];
      var now := a.(start := StartAfter(a, before));
      if last.Receive? && Accepts(now, last.frame) then Value(Window(now, last.frame))
      else LastValue(a, before)
  }

  lemma {:induction false} RunAppend(a: Axis, events: seq<Event>, e: Event)
    requires Valid(a)
    ensures Valid(Run(a, events)) && Run(a, events + [e]) == Step(Run(a, events), e)
    ensures var r := Run(a, events); r.width == a.width && r.scale == a.scale
    decreases |events|
  {
    if events == [] {
      assert Run(Step(a, e), []) == Step(a, e);
      assert ([] + [e])[1..] == [];
    } else {
      assert (events + [e])[1..] == events[1..] + [e];
      RunAppend(Step(a, events[0]), events[1..], e);
    }
  }

  lemma {:induction false} RunTracksLastValue(a: Axis, events: seq<Event>)
    requires Valid(a)
    ensures var r := Run(a, events);
      Valid(r) && r.start == StartAfter(a, events) && r.width == a.width && r.scale == a.scale
      && Value(r.window) == LastValue(a, events)
    decreases |events|
  {
    if events != [] {
      var n := |events| - 1;
      assert events == events[..n] + [events[n]];
      RunTracksLastValue(a, events[..n]);
      RunAppend(a, events[..n], events[n]);
      WindowIsOfStart(Run(a, events[..n]), a.(start := StartAfter(a, events[..n])), events[n]);
    }
  }

  /** What a frame says to an axis depends on its start address and width. */
  lemma WindowIsOfStart(r: Axis, a: Axis, e: Event)
    requires Valid(r) && Valid(a) && r.start == a.start && r.width == a.width
    ensures e.Receive? ==> Accepts(r, e.frame) == Accepts(a, e.frame)
    ensures e.Receive? && Accepts(r, e.frame) ==> Window(r, e.frame) == Window(a, e.frame)
  {
  }

  /** The refinement to the simple specification: given time after any run, the shaft ends
      exactly at the position of the value asked for last. */
  lemma EndsAtLastValue(a: Axis, events: seq<Event>, n: nat)
    requires OnTrack(a) && AllSettled(a, events) && n > Travel(a)
    ensures Run(a, events + [Elapse(Advances(n))]).motor == Motor(Steps(a.scale, LastValue(a, events)), Resting)
  {
    RunAppend(a, events, Elapse(Advances(n)));
    RunIsSafe(a, events);
    RunTracksLastValue(a, events);
    var r := Run(a, events);
    if r.motor.Busy() {
      Arrives(r.motor, Travel(a), n);
    } else {
      RestingStays(r.motor, Advances(n));
    }
  }
}
