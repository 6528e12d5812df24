/** The L6470 as the positioning modes see it: a shaft, a position counter of 22 bits
    that wraps, and at most one motion command in progress.  Time is a sequence of ticks
    chosen by the environment, so every statement about all tick sequences is a
    statement about every possible progress of the motor. */
module StepperMotor {

  /** ABS_POS is a 22-bit two's complement counter. */
  const COUNTER_RANGE: int := 0x40_0000
  const COUNTER_HALF: int := 0x20_0000

  type Counter = x: int | 0 <= x < COUNTER_RANGE

  datatype Direction = Forward | Reverse

  datatype Motion =
    | Resting
    | Seeking(dir: Direction, target: Counter)
    | Stopping(dir: Direction, target: Counter)

  /** What the environment does with a motor in one unit of time: a seeking motor may
      move one microstep or not move yet; a stopping one may move or come to a halt. */
  datatype Tick = Advance | Halt

  /** `shaft` counts microsteps since the counter was last reset, without wrapping. */
  datatype Motor = Motor(shaft: int, motion: Motion) {

    function AbsPos(): Counter {
      shaft % COUNTER_RANGE
    }

    /** getPos: bit 21 of the counter is the sign. */
    function SignedPos(): int {
      if AbsPos() >= COUNTER_HALF then AbsPos() - COUNTER_RANGE else AbsPos()
    }

    predicate Busy() {
      !motion.Resting?
    }

    function Moved(dir: Direction): Motor {
      this.(shaft := if dir.Forward? then shaft + 1 else shaft - 1)
    }

    function Next(tick: Tick): Motor {
      match motion
      case Resting => this
      case Seeking(dir, target) =>
        if tick.Halt? then this
        else if AbsPos() == target then this.(motion := Resting)
        else Moved(dir)
      case Stopping(dir, target) =>
        if tick.Halt? || AbsPos() == target then this.(motion := Resting)
        else Moved(dir)
    }

    /** SoftStop: a moving motor decelerates and halts no later than at its target. */
    function SoftStopped(): Motor {
      match motion
      case Seeking(dir, target) => this.(motion := Stopping(dir, target))
      case _ => this
    }

    /** GoTo_DIR: performed only when no motion command is in progress.  The motor turns in
        the given direction until the counter shows the target, however far that is. */
    function Sent(dir: Direction, target: nat): Motor {
      if Busy() then this else this.(motion := Seeking(dir, target % COUNTER_RANGE))
    }
  }

  /** A command to go somewhere has no effect at all on a motor that is busy. */
  lemma BusyIgnoresCommand(m: Motor, dir: Direction, target: nat, ticks: seq<Tick>)
    requires m.Busy()
    ensures Progress(m.Sent(dir, target), ticks) == Progress(m, ticks)
  {
  }

  /** A seeking motor may take any time. */
  lemma {:induction false} SeekingMayWait(m: Motor, ticks: seq<Tick>)
    requires m.motion.Seeking? && forall i :: 0 <= i < |ticks| ==> ticks[i].Halt?
    ensures Progress(m, ticks) == m
    decreases |ticks|
  {
    if ticks != [] {
      SeekingMayWait(m, ticks[1..]);
    }
  }

  /** The motor after the given ticks. */
  function Progress(m: Motor, ticks: seq<Tick>): Motor
    decreases |ticks|
  {
    if ticks == [] then m else Progress(m.Next(ticks[0]), ticks[1..])
  }

  /** Every state the motor passes through, the first and the last included. */
  function Moments(m: Motor, ticks: seq<Tick>): seq<Motor>
    decreases |ticks|
  {
    if ticks == [] then [m] else [m] + Moments(m.Next(ticks[0]), ticks[1..])
  }

  /** The shaft is within its travel, the counter has not wrapped, and whatever motion is
      in progress heads for a target within the travel. */
  ghost predicate Inside(m: Motor, travel: int) {
    && 0 <= m.shaft <= travel < COUNTER_HALF
    && match m.motion
       case Resting => true
       case Seeking(dir, target) => HeadsFor(m.shaft, dir, target, travel)
       case Stopping(dir, target) => HeadsFor(m.shaft, dir, target, travel)
  }

  ghost predicate HeadsFor(shaft: int, dir: Direction, target: int, travel: int) {
    && 0 <= target <= travel
    && if dir.Forward? then shaft <= target else target <= shaft
  }

  /** Inside is kept by every tick, hence in every moment of every run of ticks, and is
      what makes the counter readable as the shaft position. */
  lemma {:induction false} InsideAtEveryMoment(m: Motor, ticks: seq<Tick>, travel: int)
    requires Inside(m, travel)
    ensures forall x :: x in Moments(m, ticks) ==> Inside(x, travel) && x.SignedPos() == x.shaft
    ensures Inside(Progress(m, ticks), travel)
    decreases |ticks|
  {
    if ticks != [] {
      InsideAtEveryMoment(m.Next(ticks[0]), ticks[1..], travel);
    }
  }

  lemma {:induction false} RestingStays(m: Motor, ticks: seq<Tick>)
    requires !m.Busy()
    ensures Progress(m, ticks) == m
    decreases |ticks|
  {
    if ticks != [] {
      RestingStays(m, ticks[1..]);
    }
  }

  lemma {:induction false} ProgressAppend(m: Motor, a: seq<Tick>, b: seq<Tick>)
    ensures Progress(m, a + b) == Progress(Progress(m, a), b)
    decreases |a|
  {
    if a == [] {
      assert a + b == b;
    } else {
      assert (a + b)[1..] == a[1..] + b;
      ProgressAppend(m.Next(a[0]), a[1..], b);
    }
  }

  /** The number of microsteps left before the counter shows the target. */
  function Distance(m: Motor, dir: Direction, target: Counter): nat {
    var d := if dir.Forward? then target - m.AbsPos() else m.AbsPos() - target;
    if d < 0 then d + COUNTER_RANGE else d
  }

  lemma DistanceShrinks(m: Motor, dir: Direction, target: Counter)
    requires m.AbsPos() != target
    ensures Distance(m.Moved(dir), dir, target) == Distance(m, dir, target) - 1
  {
  }

  /** How many ticks a stopping motor can still take before it rests. */
  function StopMeasure(m: Motor): nat {
    if m.motion.Stopping? then 1 + Distance(m, m.motion.dir, m.motion.target) else 0
  }

  lemma {:induction false} StoppingEnds(m: Motor, ticks: seq<Tick>)
    requires !m.motion.Seeking?
    requires ticks != []
    ensures !m.motion.Resting? ==> StopMeasure(Progress(m, ticks)) < StopMeasure(m)
    ensures StopMeasure(Progress(m, ticks)) <= StopMeasure(m)
    ensures !Progress(m, ticks).motion.Seeking?
    decreases |ticks|
  {
    var n := m.Next(ticks[0]);
    if m.motion.Stopping? && m.AbsPos() != m.motion.target {
      DistanceShrinks(m, m.motion.dir, m.motion.target);
    }
    if |ticks| > 1 {
      StoppingEnds(n, ticks[1..]);
    } else {
      assert Progress(n, ticks[1..]) == n;
    }
  }

  function Advances(n: nat): (ticks: seq<Tick>)
    ensures |ticks| == n
  {
    seq(n, _ => Advance)
  }

  /** A motor inside its travel that is given time reaches its target and rests there. */
  lemma {:induction false} Arrives(m: Motor, travel: int, n: nat)
    requires Inside(m, travel) && m.motion.Seeking?
    requires n > (if m.motion.dir.Forward? then m.motion.target - m.shaft else m.shaft - m.motion.target)
    ensures Progress(m, Advances(n)) == Motor(m.motion.target, Resting)
    decreases n
  {
    var next := m.Next(Advance);
    assert Advances(n)[1..] == Advances(n - 1);
    if m.shaft == m.motion.target {
      RestingStays(next, Advances(n - 1));
    } else {
      Arrives(next, travel, n - 1);
    }
  }

  /** The direction toward the target; a motor already there may be given either. */
  predicate Toward(from: int, dir: Direction, target: int) {
    from == target || (dir.Forward? <==> from < target)
  }

  /** Why the direction matters: sent in some direction, a resting motor stays within its
      travel under every possible progress exactly when that direction leads to the target. */
  lemma StaysInsideIffToward(m: Motor, dir: Direction, target: nat, travel: int)
    requires !m.Busy() && 0 <= m.shaft <= travel && target <= travel < COUNTER_HALF
    ensures (forall ticks, x :: x in Moments(m.Sent(dir, target), ticks) ==> 0 <= x.shaft <= travel)
            <==> Toward(m.shaft, dir, target)
  {
    var sent := m.Sent(dir, target);
    if Toward(m.shaft, dir, target) {
      forall ticks, x | x in Moments(sent, ticks) ensures 0 <= x.shaft <= travel {
        InsideAtEveryMoment(sent, ticks, travel);
      }
    } else {
      var n := if dir.Forward? then travel + 1 - m.shaft else m.shaft + 1;
      RunsAway(sent, n, travel);
      LastMoment(sent, Advances(n));
      var x := Progress(sent, Advances(n));
      assert x in Moments(sent, Advances(n)) && !(0 <= x.shaft <= travel);
    }
  }

  lemma {:induction false} RunsAway(m: Motor, n: nat, travel: int)
    requires m.motion.Seeking? && 0 <= m.motion.target <= travel < COUNTER_HALF
    requires -1 <= m.shaft <= travel + 1
    requires if m.motion.dir.Forward? then m.motion.target < m.shaft && m.shaft + n <= travel + 1
             else m.shaft < m.motion.target && m.shaft - n >= -1
    ensures Progress(m, Advances(n)).shaft == if m.motion.dir.Forward? then m.shaft + n else m.shaft - n
    decreases n
  {
    if n > 0 {
      assert Advances(n)[1..] == Advances(n - 1);
      assert m.AbsPos() != m.motion.target;
      RunsAway(m.Next(Advance), n - 1, travel);
    }
  }

  lemma {:induction false} LastMoment(m: Motor, ticks: seq<Tick>)
    ensures Progress(m, ticks) in Moments(m, ticks)
    decreases |ticks|
  {
    if ticks != [] {
      LastMoment(m.Next(ticks[0]), ticks[1..]);
    }
  }
}
