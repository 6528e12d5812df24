/** The exponential moving average filter: a 16-bit state and a rounding shift by k bits. */
module Ema {
  import opened Words

  /** x << k, before it is cut to 16 bits. */
  function ShiftLeft(x: int, k: nat): int {
    if k == 0 then x else 2 * ShiftLeft(x, k - 1)
  }

  /** x >> k: one bit is dropped at a time. */
  function ShiftRight(x: int, k: nat): int
    decreases k
  {
    if k == 0 then x else ShiftRight(x / 2, k - 1)
  }

  /** The rounding constant, itself kept in 16 bits. */
  function Half(k: nat): Word {
    if k > 0 then Wrapped(ShiftLeft(1, k - 1)) else 0
  }

  function Started(k: nat, value: Word): Word {
    Wrapped(Wrapped(ShiftLeft(value, k)) - value)
  }

  function Output(k: nat, state: Word, input: Word): Word {
    Wrapped(ShiftRight(Wrapped(state + input) + Half(k), k))
  }

  function Next(k: nat, state: Word, input: Word): Word {
    Wrapped(Wrapped(state + input) - Output(k, state, input))
  }

  /** The state after a run of inputs. */
  function Fed(k: nat, state: Word, inputs: seq<Word>): Word
    decreases |inputs|
  {
    if inputs == [] then state else Fed(k, Next(k, state, inputs[0]), inputs[1..])
  }

  /** The values a run of inputs produces. */
  function Outputs(k: nat, state: Word, inputs: seq<Word>): (o: seq<Word>)
    ensures |o| == |inputs|
    decreases |inputs|
  {
    if inputs == [] then []
    else [Output(k, state, inputs[0])] + Outputs(k, Next(k, state, inputs[0]), inputs[1..])
  }

  /** The state that yields `value` when fed `value`, and is then left as it was. */
  function Rest(k: nat, value: int): int {
    ShiftLeft(value, k) - value
  }

  function Deviation(k: nat, state: int, value: int): int {
    state - Rest(k, value)
  }

  function Distance(k: nat, state: int, value: int): nat {
    var d := Deviation(k, state, value);
    if d < 0 then -d else d
  }

  class EMA {
    const k: nat
    var state: Word

    constructor (k: nat, initial: Word)
      ensures this.k == k && state == Started(k, initial)
    {
      this.k := k;
      state := Wrapped(Wrapped(ShiftLeft(initial, k)) - initial);
    }

    method Reset(value: Word)
      modifies this
      ensures state == Started(k, value)
    {
      state := Wrapped(Wrapped(ShiftLeft(value, k)) - value);
    }

    method Filter(input: Word) returns (output: Word)
      modifies this
      ensures output == Output(k, old(state), input)
      ensures state == Next(k, old(state), input)
    {
      state := Wrapped(state + input);
      output := Wrapped(ShiftRight(state + Half(k), k));
      state := Wrapped(state - output);
    }
  }

  // ---- shifts

  lemma {:induction false} ShiftLeftAdds(x: int, y: int, k: nat)
    ensures ShiftLeft(x + y, k) == ShiftLeft(x, k) + ShiftLeft(y, k)
  {
    if k > 0 {
      ShiftLeftAdds(x, y, k - 1);
    }
  }

  /** Shifting left moves a number away from zero. */
  lemma {:induction false} ShiftLeftGrows(x: int, k: nat)
    ensures x >= 0 ==> x <= ShiftLeft(x, k)
    ensures x <= 0 ==> ShiftLeft(x, k) <= x
  {
    if k > 0 {
      ShiftLeftGrows(x, k - 1);
    }
  }

  /** Larger numbers shift to larger ones, and at least as far apart. */
  lemma RestMonotone(x: int, y: int, k: nat)
    requires x <= y
    ensures Rest(k, x) <= Rest(k, y)
    ensures ShiftLeft(x, k) <= ShiftLeft(y, k)
  {
    ShiftLeftAdds(x, y - x, k);
    ShiftLeftGrows(y - x, k);
  }

  /** A right shift yields q exactly on the 2^k numbers from q << k on. */
  lemma {:induction false} ShiftRightIff(t: int, k: nat, q: int)
    ensures ShiftRight(t, k) == q <==> ShiftLeft(q, k) <= t < ShiftLeft(q, k) + ShiftLeft(1, k)
    decreases k
  {
    if k > 0 {
      ShiftRightIff(t / 2, k - 1, q);
    }
  }

  /** As long as 2^k fits 16 bits, the rounding constant is half of it. */
  lemma HalfOfUnit(k: nat)
    requires ShiftLeft(1, k) <= WORD_SIZE
    ensures if k == 0 then Half(k) == 0 && ShiftLeft(1, k) == 1 else 2 * Half(k) == ShiftLeft(1, k)
  {
  }

  /** Cut to 16 bits or not, the rounding constant is less than 2^k. */
  lemma HalfBelowUnit(k: nat)
    ensures Half(k) < ShiftLeft(1, k)
    ensures Half(k) <= WORD_SIZE / 2
  {
    ShiftLeftGrows(1, k);
    if k > 0 {
      ShiftLeftGrows(1, k - 1);
      if k > 17 {
        UnitIsMultiple(k - 1);
      }
    }
  }

  lemma {:induction false} UnitIsMultiple(k: nat)
    requires k >= 16
    ensures ShiftLeft(1, k) % WORD_SIZE == 0
  {
    if k == 16 {
      assert ShiftLeft(1, 4) == 16;
      assert ShiftLeft(1, 8) == 256;
      assert ShiftLeft(1, 12) == 4096;
    } else {
      UnitIsMultiple(k - 1);
    }
  }

  // ---- one call, as long as nothing wraps

  lemma RoundedBetween(t: int, k: nat, h: nat, lo: int, hi: int)
    requires h < ShiftLeft(1, k) && ShiftLeft(lo, k) <= t <= ShiftLeft(hi, k)
    ensures lo <= ShiftRight(t + h, k) <= hi
  {
    var q := ShiftRight(t + h, k);
    ShiftRightIff(t + h, k, q);
    if q < lo {
      ShiftLeftAdds(q, 1, k);
      RestMonotone(q + 1, lo, k);
    } else if q > hi {
      ShiftLeftAdds(hi, 1, k);
      RestMonotone(hi + 1, q, k);
    }
  }

  /** What is left behind after the output has been taken out. */
  lemma LeftBetween(t: int, k: nat, h: nat, lo: int, hi: int)
    requires h < ShiftLeft(1, k) && ShiftLeft(lo, k) <= t <= ShiftLeft(hi, k)
    ensures Rest(k, lo) <= t - ShiftRight(t + h, k) <= Rest(k, hi)
  {
    var q := ShiftRight(t + h, k);
    ShiftRightIff(t + h, k, q);
    RoundedBetween(t, k, h, lo, hi);
    if q < hi {
      ShiftLeftAdds(hi - 1, 1, k);
      RestMonotone(q, hi - 1, k);
    }
    if q > lo {
      ShiftLeftAdds(lo, 1, k);
      RestMonotone(lo + 1, q, k);
    }
  }

  lemma CallBetween(k: nat, state: Word, input: Word, lo: Word, hi: Word)
    requires ShiftLeft(hi, k) < WORD_SIZE && lo <= input <= hi
    requires Rest(k, lo) <= state <= Rest(k, hi)
    ensures state + input < WORD_SIZE
    ensures lo <= Output(k, state, input) <= hi
    ensures Rest(k, lo) <= Next(k, state, input) <= Rest(k, hi)
    ensures Next(k, state, input) + Output(k, state, input) == state + input
  {
    var t := state + input;
    HalfBelowUnit(k);
    ShiftLeftGrows(lo, k);
    assert ShiftLeft(lo, k) <= t <= ShiftLeft(hi, k);
    RoundedBetween(t, k, Half(k), lo, hi);
    LeftBetween(t, k, Half(k), lo, hi);
    OutputUnwrapped(k, state, input, ShiftRight(t + Half(k), k));
  }

  lemma OutputUnwrapped(k: nat, state: Word, input: Word, output: Word)
    requires state + input < WORD_SIZE
    requires ShiftRight(state + input + Half(k), k) == output <= state + input
    ensures Output(k, state, input) == output
    ensures Next(k, state, input) == state + input - output
  {
  }

  lemma StartedAtRest(k: nat, value: Word)
    requires ShiftLeft(value, k) < WORD_SIZE
    ensures Started(k, value) == Rest(k, value)
  {
  }

  // ---- boundedness over runs

  lemma {:induction false} RunBetween(k: nat, state: Word, inputs: seq<Word>, lo: Word, hi: Word)
    requires ShiftLeft(hi, k) < WORD_SIZE
    requires Rest(k, lo) <= state <= Rest(k, hi)
    requires forall i :: 0 <= i < |inputs| ==> lo <= inputs[i] <= hi
    ensures forall i :: 0 <= i < |inputs| ==> lo <= Outputs(k, state, inputs)[i] <= hi
    ensures Rest(k, lo) <= Fed(k, state, inputs) <= Rest(k, hi)
    decreases |inputs|
  {
    if inputs != [] {
      CallBetween(k, state, inputs[0], lo, hi);
      RunBetween(k, Next(k, state, inputs[0]), inputs[1..], lo, hi);
    }
  }

  /** From a reset inside [lo, hi], inputs inside [lo, hi] only ever produce outputs inside [lo, hi]. */
  lemma OutputsStayInRange(k: nat, value: Word, inputs: seq<Word>, lo: Word, hi: Word)
    requires lo <= value <= hi && ShiftLeft(hi, k) < WORD_SIZE
    requires forall i :: 0 <= i < |inputs| ==> lo <= inputs[i] <= hi
    ensures forall i :: 0 <= i < |inputs| ==> lo <= Outputs(k, Started(k, value), inputs)[i] <= hi
    ensures Rest(k, lo) <= Fed(k, Started(k, value), inputs) <= Rest(k, hi)
  {
    RestMonotone(value, hi, k);
    RestMonotone(lo, value, k);
    StartedAtRest(k, value);
    RunBetween(k, Started(k, value), inputs, lo, hi);
  }

  /** Adding a value to the state reset to it gives that value shifted, cut to 16 bits. */
  lemma ResetThenAdd(k: nat, value: Word)
    ensures Wrapped(Started(k, value) + value) == Wrapped(ShiftLeft(value, k))
  {
  }

  lemma WrappingLosesAWord(x: int)
    requires x >= WORD_SIZE
    ensures Wrapped(x) <= x - WORD_SIZE
  {
  }

  /** A state that has wrapped yields too little. */
  lemma FallsShort(k: nat, value: Word, t: Word)
    requires t <= ShiftLeft(value, k) - WORD_SIZE
    ensures 0 <= ShiftRight(t + Half(k), k) < value
  {
    var q := ShiftRight(t + Half(k), k);
    ShiftRightIff(t + Half(k), k, q);
    HalfBelowUnit(k);
    if q >= value {
      RestMonotone(value, q, k);
    } else if q < 0 {
      ShiftLeftAdds(q, 1, k);
      ShiftLeftGrows(q + 1, k);
    }
  }

  lemma FallenShort(k: nat, value: Word, state: Word, t: Word)
    requires Wrapped(state + value) == t <= ShiftLeft(value, k) - WORD_SIZE
    ensures Output(k, state, value) < value
  {
    FallsShort(k, value, t);
  }

  /** The range condition is exact: a value fed right after a reset to it comes back only if it fits. */
  lemma SteadyIffFits(k: nat, value: Word)
    ensures Output(k, Started(k, value), value) == value <==> ShiftLeft(value, k) < WORD_SIZE
  {
    if ShiftLeft(value, k) < WORD_SIZE {
      SteadyIfFits(k, value);
    } else {
      ShortIfNot(k, value);
    }
  }

  lemma SteadyIfFits(k: nat, value: Word)
    requires ShiftLeft(value, k) < WORD_SIZE
    ensures Output(k, Started(k, value), value) == value
  {
    StartedAtRest(k, value);
    CallBetween(k, Started(k, value), value, value, value);
  }

  lemma ShortIfNot(k: nat, value: Word)
    requires ShiftLeft(value, k) >= WORD_SIZE
    ensures Output(k, Started(k, value), value) < value
  {
    ResetThenAdd(k, value);
    WrappingLosesAWord(ShiftLeft(value, k));
    FallenShort(k, value, Started(k, value), Wrapped(ShiftLeft(value, k)));
  }

  // ---- convergence on a constant input

  /** Where a correction `e` takes a deviation `d`. */
  predicate Closer(k: nat, d: int, e: int) {
    && (e == 0 <==> -(Half(k) as int) <= d < ShiftLeft(1, k) - Half(k))
    && (e > 0 ==> 0 <= d - e < d)
    && (e < 0 ==> d < d - e <= 0)
  }

  /** Taking the rounded quotient out of a deviation brings it closer to zero, never past it. */
  lemma DeviationShrinks(d: int, k: nat)
    requires ShiftLeft(1, k) <= WORD_SIZE
    ensures Closer(k, d, ShiftRight(d + Half(k), k))
  {
    var e := ShiftRight(d + Half(k), k);
    HalfOfUnit(k);
    ShiftLeftGrows(0, k);
    ShiftLeftGrows(d, k);
    ShiftRightIff(d + Half(k), k, 0);
    ShiftRightIff(d + Half(k), k, e);
    if e > 0 {
      RestMonotone(1, e, k);
      if e > d {
        ShiftLeftAdds(d, 1, k);
        RestMonotone(d + 1, e, k);
      }
    } else if e < 0 {
      ShiftLeftAdds(e, 1, k);
      RestMonotone(e + 1, 0, k);
      if e < d {
        RestMonotone(e + 1, d, k);
      }
    }
  }

  /** The output is the input plus the rounded quotient of the deviation. */
  lemma OutputOfDeviation(k: nat, state: int, input: int)
    ensures ShiftRight(state + input + Half(k), k)
         == input + ShiftRight(Deviation(k, state, input) + Half(k), k)
  {
    var d := Deviation(k, state, input);
    var e := ShiftRight(d + Half(k), k);
    ShiftRightIff(d + Half(k), k, e);
    ShiftLeftAdds(input, e, k);
    ShiftRightIff(state + input + Half(k), k, input + e);
  }

  /** A filter that can take `input` without wrapping, now and from then on. */
  predicate Takes(k: nat, state: Word, input: Word) {
    && state + input < WORD_SIZE
    && ShiftLeft(input, k) < WORD_SIZE
    && ShiftLeft(1, k) <= WORD_SIZE
  }

  /** The part of the deviation that a call takes out. */
  function Correction(k: nat, state: Word, input: Word): int {
    ShiftRight(Deviation(k, state, input) + Half(k), k)
  }

  lemma CallCorrects(k: nat, state: Word, input: Word)
    requires Takes(k, state, input)
    ensures Output(k, state, input) == input + Correction(k, state, input)
    ensures Next(k, state, input) == state - Correction(k, state, input)
  {
    OutputOfDeviation(k, state, input);
    OutputFits(k, state + input);
    OutputUnwrapped(k, state, input, input + Correction(k, state, input));
  }

  /** A call whose output is not the input brings the state closer to rest, without overshoot; one whose
      output is the input leaves the state alone. */
  lemma CallConverges(k: nat, state: Word, input: Word)
    requires Takes(k, state, input)
    ensures Takes(k, Next(k, state, input), input)
    ensures Deviation(k, Next(k, state, input), input)
         == Deviation(k, state, input) - (Output(k, state, input) - input)
    ensures Closer(k, Deviation(k, state, input), Output(k, state, input) - input)
  {
    CallCorrects(k, state, input);
    DeviationShrinks(Deviation(k, state, input), k);
    StaysTaken(k, state, input, Next(k, state, input), Correction(k, state, input));
  }

  /** The state stays on its side of rest, so it leaves room for the input. */
  lemma StaysTaken(k: nat, state: Word, input: Word, next: Word, e: int)
    requires Takes(k, state, input) && next == state - e
    requires Closer(k, Deviation(k, state, input), e)
    ensures Takes(k, next, input)
  {
  }

  lemma OutputFits(k: nat, t: Word)
    requires ShiftLeft(1, k) <= WORD_SIZE
    ensures 0 <= ShiftRight(t + Half(k), k) <= t
  {
    HalfOfUnit(k);
    ShiftLeftGrows(0, k);
    ShiftLeftGrows(t, k);
    var q := ShiftRight(t + Half(k), k);
    ShiftRightIff(t + Half(k), k, q);
    if q < 0 {
      ShiftLeftAdds(q, 1, k);
      RestMonotone(q + 1, 0, k);
    } else if q > t {
      ShiftLeftAdds(t, 1, k);
      RestMonotone(t + 1, q, k);
    }
  }

  /** What a call computes, in plain numbers and for every state and input, wrapped or not: with t the 16-bit sum, the
      output is t / 2^k rounded to the nearest, halves up, and what is left of t is kept. */
  lemma OutputRounds(k: nat, state: Word, input: Word, t: nat, out: int)
    requires ShiftLeft(1, k) <= WORD_SIZE && t == (state + input) % 0x1_0000 && out == Output(k, state, input)
    ensures Rounds(k, t, out) && out <= t && Next(k, state, input) == t - out
  {
    OutputFits(k, t);
    OfSum(k, state, input, t, ShiftRight(t + Half(k), k));
    RoundedShift(k, t, out);
  }

  lemma OfSum(k: nat, state: Word, input: Word, t: Word, out: Word)
    requires t == Wrapped(state + input) && out == ShiftRight(t + Half(k), k) && out <= t
    ensures Output(k, state, input) == out && Next(k, state, input) == t - out
  {
  }

  /** out << k is less than 2^(k - 1) above t, or as much, and less than 2^(k - 1) below it. */
  ghost predicate Rounds(k: nat, t: nat, out: int) {
    var unit := ShiftLeft(1, k);
    2 * ShiftLeft(out, k) <= 2 * t + (if k == 0 then 0 else unit) < 2 * ShiftLeft(out, k) + 2 * unit
  }

  lemma RoundedShift(k: nat, t: nat, out: int)
    requires ShiftLeft(1, k) <= WORD_SIZE && out == ShiftRight(t + Half(k), k)
    ensures Rounds(k, t, out)
  {
    HalfOfUnit(k);
    ShiftRightIff(t + Half(k), k, out);
  }

  predicate Constant(inputs: seq<Word>, input: Word) {
    forall i :: 0 <= i < |inputs| ==> inputs[i] == input
  }

  /** Once the output is the input it stays so, and so does the state. */
  lemma {:induction false} Stays(k: nat, state: Word, inputs: seq<Word>, input: Word)
    requires Takes(k, state, input) && Constant(inputs, input)
    requires Output(k, state, input) == input
    ensures Constant(Outputs(k, state, inputs), input)
    ensures Fed(k, state, inputs) == state
    decreases |inputs|
  {
    if inputs != [] {
      CallConverges(k, state, input);
      Stays(k, state, inputs[1..], input);
    }
  }

  /**
   * Fed one input again and again, the filter yields it from some call on and not before, at the latest
   * after as many calls as the state is away from rest.
   */
  lemma {:induction false} Converges(k: nat, state: Word, inputs: seq<Word>, input: Word) returns (settled: nat)
    requires Takes(k, state, input) && Constant(inputs, input)
    ensures settled <= Distance(k, state, input)
    ensures forall i :: 0 <= i < |inputs| ==>
      (Outputs(k, state, inputs)[i] == input <==> settled <= i)
    decreases |inputs|
  {
    settled := 0;
    if inputs != [] {
      CallConverges(k, state, input);
      if Output(k, state, input) == input {
        Stays(k, state, inputs, input);
      } else {
        var later := Converges(k, Next(k, state, input), inputs[1..], input);
        settled := later + 1;
      }
    }
  }

  /** Every call up to that one brings the state strictly closer to rest, on the side it started from. */
  lemma {:induction false} Approaches(k: nat, state: Word, inputs: seq<Word>, input: Word)
    requires Takes(k, state, input) && Constant(inputs, input)
    ensures var before := Deviation(k, state, input);
            var after := Deviation(k, Fed(k, state, inputs), input);
            && (before >= 0 ==> 0 <= after <= before)
            && (before <= 0 ==> before <= after <= 0)
            && (inputs != [] && Output(k, state, input) != input ==> after != before)
    decreases |inputs|
  {
    if inputs != [] {
      CallConverges(k, state, input);
      Approaches(k, Next(k, state, input), inputs[1..], input);
    }
  }
}
