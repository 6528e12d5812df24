/** Light sets as far as addresses and slots go: the stepper board with its motors, and the others that can
    share a chain with it. */
module LightSets {
  import opened AddressHull
  import opened Dmx
  import opened Text
  import opened Words

  /** The stepper board, a string of LEDs with this many slots each, the monitor of a hosted and of a bare
      system, a light set that leaves the optional methods as they are, and the splitter into four. */
  datatype Kind = Board | Leds(perLed: nat) | Monitor | Console | Plain | Splitter

  const START_ADDRESS_DEFAULT: Word := 1

  datatype Motor = Absent | Present(span: Span)

  /** What moving a light set is about: its own slots and those of its motors. */
  datatype View = View(kind: Kind, span: Span, motors: seq<Motor>) {
    /** The start addresses that it takes; any other it refuses. */
    predicate Accepts(to: Word) {
      match kind
      case Board => true
      case Leds(_) => to != 0 && to <= Unsigned(UNIVERSE_SIZE - span.footprint)
      case Monitor => to <= UNIVERSE_SIZE - span.footprint
      case Console => to == START_ADDRESS_DEFAULT
      case Plain => false
      case Splitter => false
    }
  }

  /** The slots of a new light set. */
  function Initial(kind: Kind, footprint: Word): Span {
    match kind
    case Board => NOTHING
    case Leds(_) => Span(START_ADDRESS_DEFAULT, footprint)
    case Monitor => Span(START_ADDRESS_DEFAULT, footprint)
    case Console => Span(START_ADDRESS_DEFAULT, UNIVERSE_SIZE)
    case Plain => Span(START_ADDRESS_DEFAULT, UNIVERSE_SIZE)
    case Splitter => NOTHING
  }

  // ---- moving

  function MotorMoved(motor: Motor, from: Word, to: Word): Motor {
    match motor
    case Absent => Absent
    case Present(span) => Present(SpanMoved(span, from, to))
  }

  function MotorsMoved(motors: seq<Motor>, from: Word, to: Word): (m: seq<Motor>)
    ensures |m| == |motors|
  {
    seq(|motors|, i requires 0 <= i < |motors| => MotorMoved(motors[i], from, to))
  }

  /** A light set asked to take a new start address. */
  function Readdressed(view: View, to: Word): View {
    if to == view.span.start || !view.Accepts(to) then view
    else View(view.kind, Span(to, view.span.footprint), MotorsMoved(view.motors, view.span.start, to))
  }

  /** A member of a chain whose start address changes. */
  function MemberMoved(view: View, from: Word, to: Word): View {
    Readdressed(view, Moved(view.span.start, from, to))
  }

  lemma MotorsMoveNested(motors: seq<Motor>, outer: Word, from: Word, to: Word)
    ensures MotorsMoved(motors, outer, Moved(outer, from, to)) == MotorsMoved(motors, from, to)
  {
  }

  lemma MotorsMoveBack(motors: seq<Motor>, from: Word, to: Word)
    ensures MotorsMoved(MotorsMoved(motors, from, to), to, from) == motors
  {
  }

  /** A member moves by what its chain moves by exactly if it accepts the address that takes; its motors then
      move by the same. One that refuses does not change at all. */
  lemma MemberMovesIff(view: View, from: Word, to: Word)
    requires from != to
    ensures var moved, accepts := MemberMoved(view, from, to), view.Accepts(Moved(view.span.start, from, to));
      && (moved.span == SpanMoved(view.span, from, to) <==> accepts)
      && (accepts ==> moved.motors == MotorsMoved(view.motors, from, to))
      && (!accepts ==> moved == view)
  {
    MovedNowhereIff(view.span.start, from, to);
    MotorsMoveNested(view.motors, view.span.start, from, to);
  }

  /** What has to hold before a move for the move back to restore a member: it accepts both addresses, or it
      refuses the first and then also the one that moving it back would take. */
  predicate ComesBack(view: View, from: Word, to: Word) {
    var start := view.span.start;
    if view.Accepts(Moved(start, from, to)) then view.Accepts(start) else !view.Accepts(Moved(start, to, from))
  }

  lemma MemberMovesBackIff(view: View, from: Word, to: Word)
    requires from != to
    ensures MemberMoved(MemberMoved(view, from, to), to, from) == view <==> ComesBack(view, from, to)
  {
    var start := view.span.start;
    var there := Moved(start, from, to);
    MovedNowhereIff(start, from, to);
    if view.Accepts(there) {
      MovedBack(start, from, to);
      MotorsMoveBack(view.motors, start, there);
    } else {
      MovedNowhereIff(start, to, from);
    }
  }

  // ---- the slots of the board

  /** The slots of the motors that are there, in order. */
  function PresentSpans(motors: seq<Motor>): seq<Span> {
    if motors == [] then []
    else
      var last := motors[|motors| - 1];
      PresentSpans(motors[..|motors| - 1]) + (if last.Present? then [last.span] else [])
  }

  lemma {:induction false} NonePresent(motors: seq<Motor>)
    requires forall i :: 0 <= i < |motors| ==> motors[i].Absent?
    ensures PresentSpans(motors) == []
  {
    if motors != [] {
      NonePresent(motors[..|motors| - 1]);
    }
  }

  /** Configuring the next motor puts its slots behind those of the others. */
  lemma {:induction false} ConfiguredSpans(motors: seq<Motor>, i: nat, span: Span)
    requires i < |motors| && forall j :: i <= j < |motors| ==> motors[j].Absent?
    ensures PresentSpans(motors[i := Present(span)]) == PresentSpans(motors) + [span]
  {
    var n := |motors| - 1;
    var after := motors[i := Present(span)];
    if i < n {
      ConfiguredSpans(motors[..n], i, span);
      assert after[..n] == motors[..n][i := Present(span)];
    } else {
      assert after[..n] == motors[..n];
    }
  }

  /** The smallest interval around some slots, the mark for "no address" around none. */
  ghost predicate FitsSpans(span: Span, spans: seq<Span>) {
    if spans == [] then span.start == ADDRESS_INVALID else span.Proper() && IsHull(span, spans)
  }

  /** It goes on fitting exactly as long as the next slots end within the 16 bits, and the first do not begin at
      the mark for "no address". */
  lemma FitsAfterIff(span: Span, spans: seq<Span>, next: Span)
    requires FitsSpans(span, spans)
    ensures FitsSpans(Widened(span, next), spans + [next])
       <==> next.End() < WORD_SIZE && (spans == [] ==> next.start != ADDRESS_INVALID)
  {
    if spans == [] {
      assert (spans + [next])[0] == next;
    } else {
      WidenedIsHullIff(span, spans, next);
    }
  }

  /** The slots of a light set are the smallest interval around those of its motors. */
  ghost predicate FitsMotors(span: Span, motors: seq<Motor>) {
    FitsSpans(span, PresentSpans(motors))
  }

  lemma ConfiguredFits(span: Span, motors: seq<Motor>, i: nat, next: Span)
    requires i < |motors| && forall j :: i <= j < |motors| ==> motors[j].Absent?
    requires FitsMotors(span, motors) && next.Proper()
    ensures FitsMotors(Widened(span, next), motors[i := Present(next)])
  {
    FitsAfterIff(span, PresentSpans(motors), next);
    ConfiguredSpans(motors, i, next);
  }

  lemma {:induction false} PresentSpansHave(motors: seq<Motor>, i: nat)
    requires i < |motors| && motors[i].Present?
    ensures motors[i].span in PresentSpans(motors)
  {
    if i < |motors| - 1 {
      PresentSpansHave(motors[..|motors| - 1], i);
    }
  }

  /** A light set without motors, or one whose slots are those of its motors. */
  ghost predicate Consistent(span: Span, motors: seq<Motor>) {
    (forall i :: 0 <= i < |motors| ==> motors[i].Absent?) || FitsMotors(span, motors)
  }

  lemma MotorCovered(span: Span, motors: seq<Motor>, i: nat)
    requires Consistent(span, motors) && i < |motors| && motors[i].Present?
    ensures span.Proper() && span.Covers(motors[i].span)
  {
    PresentSpansHave(motors, i);
  }

  // ---- what a light set says about a slot

  /** A number taken as 16 bits with a sign. */
  function Signed(x: int): int
    requires -WORD_SIZE <= x < 2 * WORD_SIZE
  {
    if Turned(x) < 0x8000 then Turned(x) else Turned(x) - WORD_SIZE
  }

  /** The answer to a question about a slot: which slot of which motor it is, or its category. */
  datatype SlotReport = NoSlot | MotorSlot(motor: nat, offset: nat) | Category(category: Word)

  const INTENSITY: Word := 0x0001

  /** Red, green, blue and white, of the slot categories in table C-2 of ANSI E1.20. */
  function LedCategory(i: nat): Word {
    match i
    case 0 => 0x0205
    case 1 => 0x0206
    case 2 => 0x0207
    case _ => 0x0212
  }

  predicate Occupies(motor: Motor, address: nat) {
    motor.Present? && motor.span.start <= address < motor.span.End()
  }

  /** The first motor from number i on that occupies an address, and where in it. */
  function MotorAnswer(motors: seq<Motor>, address: nat, i: nat): SlotReport
    requires i <= |motors|
    decreases |motors| - i
  {
    if i == |motors| then NoSlot
    else if Occupies(motors[i], address) then MotorSlot(i, address - motors[i].span.start)
    else MotorAnswer(motors, address, i + 1)
  }

  /** It is that of the first motor whose slots the address is among, counted from the start of that motor. */
  lemma {:induction false} MotorAnswerIs(motors: seq<Motor>, address: nat, i: nat)
    requires i <= |motors|
    ensures match MotorAnswer(motors, address, i)
      case NoSlot => NoneHas(motors[i..], address)
      case MotorSlot(k, offset) =>
        && i <= k < |motors| && motors[k].Present?
        && motors[k].span.start + offset == address && offset < motors[k].span.footprint
        && NoneHas(motors[i..k], address)
      case Category(_) => false
    decreases |motors| - i
  {
    if i < |motors| && !Occupies(motors[i], address) {
      MotorAnswerIs(motors, address, i + 1);
    }
  }

  /** The address is before or behind the slots of every one of these motors that is there. */
  ghost predicate NoneHas(motors: seq<Motor>, address: nat) {
    forall j :: 0 <= j < |motors| && motors[j].Present? ==>
      address < motors[j].span.start || address >= motors[j].span.start + motors[j].span.footprint
  }

  /** What is to be said about an address. */
  function Answer(view: View, address: nat): SlotReport
    requires view.kind.Leds? ==> view.kind.perLed > 0
  {
    if view.kind.Board? then MotorAnswer(view.motors, address, 0)
    else if !(view.span.start <= address < view.span.End()) || view.kind.Splitter? then NoSlot
    else if view.kind.Leds? then Category(LedCategory((address - view.span.start) % view.kind.perLed))
    else Category(INTENSITY)
  }

  predicate Finds(motor: Motor, address: Word) {
    motor.Present? && address >= motor.span.start && Signed(address - motor.span.start) < motor.span.footprint
  }

  lemma FindsIffOccupies(span: Span, motors: seq<Motor>, i: nat, address: Word)
    requires Consistent(span, motors) && i < |motors| && span.footprint < 0x8000
    requires span.start <= address <= span.End()
    ensures Finds(motors[i], address) <==> Occupies(motors[i], address)
    ensures Finds(motors[i], address) ==>
      Signed(address - motors[i].span.start) == address - motors[i].span.start && address < span.End()
  {
    if motors[i].Present? {
      MotorCovered(span, motors, i);
    }
  }

  lemma {:induction false} NoMotorAnswers(span: Span, motors: seq<Motor>, address: nat, i: nat)
    requires Consistent(span, motors) && i <= |motors|
    requires !(span.Proper() && span.start <= address < span.End())
    ensures MotorAnswer(motors, address, i) == NoSlot
    decreases |motors| - i
  {
    if i < |motors| {
      if motors[i].Present? {
        MotorCovered(span, motors, i);
      }
      NoMotorAnswers(span, motors, address, i + 1);
    }
  }

  /** A view whose answers 16-bit offsets can find: its slots are those of its motors, if it has any, and few
      enough; one that answers for every offset begins inside the universe. */
  ghost predicate Searchable(view: View) {
    && Consistent(view.span, view.motors) && view.span.footprint < 0x8000
    && (view.kind.Leds? ==> view.kind.perLed > 0)
    && (!view.kind.Board? ==> forall i :: 0 <= i < |view.motors| ==> view.motors[i].Absent?)
    && (view.kind.Monitor? || view.kind.Console? || view.kind.Plain? ==> view.span.start <= UNIVERSE_SIZE)
  }

  lemma NoAnswerOutside(view: View, address: nat)
    requires Searchable(view) && !(view.span.start <= address < view.span.End())
    ensures Answer(view, address) == NoSlot
  {
    if view.kind.Board? {
      NoMotorAnswers(view.span, view.motors, address, 0);
    }
  }

  class LightSet {
    const kind: Kind
    var span: Span
    var motors: seq<Motor>
    /** The start addresses saved to the configuration: of its motors, and its own. */
    var saved: seq<Option<Word>>
    var savedStart: Option<Word>

    ghost predicate Valid()
      reads this
    {
      && |motors| == |saved| == MAX_MOTORS
      && (kind.Leds? ==> kind.perLed == 3 || kind.perLed == 4)
      && (!kind.Board? ==> forall i :: 0 <= i < MAX_MOTORS ==> motors[i].Absent?)
      && (kind.Monitor? || kind.Console? || kind.Plain? ==> span.start <= UNIVERSE_SIZE)
    }

    function Whole(): View
      reads this
    {
      View(kind, span, motors)
    }

    /** `footprint` is the number of slots of a string of LEDs, and of a monitor. */
    constructor (kind: Kind, footprint: Word)
      requires kind.Leds? ==> kind.perLed == 3 || kind.perLed == 4
      ensures Valid() && this.kind == kind && span == Initial(kind, footprint) && savedStart == None
      ensures kind.Board? || kind.Splitter? ==> span == Span(0xFFFF, 0)
      ensures kind.Leds? || kind.Monitor? ==> span == Span(1, footprint)
      ensures kind.Console? || kind.Plain? ==> span == Span(1, 512)
      ensures forall i :: 0 <= i < MAX_MOTORS ==> motors[i].Absent? && saved[i] == None
      ensures kind.Board? ==> FitsMotors(span, motors)
    {
      this.kind := kind;
      span := Initial(kind, footprint);
      motors := seq(MAX_MOTORS, _ => Absent);
      saved := seq(MAX_MOTORS, _ => None);
      savedStart := None;
      new;
      NonePresent(motors);
    }

    /** Motor i as its configuration file has it, if its board answers; the motors are configured in order. */
    method Configure(i: nat, start: Word, footprint: Word, isConnected: bool)
      requires Valid() && kind.Board? && i < MAX_MOTORS && forall j :: i <= j < MAX_MOTORS ==> motors[j].Absent?
      requires FitsMotors(span, motors) && footprint <= UNIVERSE_SIZE
      modifies this
      ensures Valid() && FitsMotors(span, motors) && saved == old(saved) && savedStart == old(savedStart)
      ensures motors == if start <= UNIVERSE_SIZE && footprint != 0 && isConnected
                        then old(motors)[i := Present(Span(start, footprint))] else old(motors)
    {
      if start <= UNIVERSE_SIZE && footprint != 0 {
        if isConnected {
          ConfiguredFits(span, motors, i, Span(start, footprint));
          motors := motors[i := Present(Span(start, footprint))];
          span := Widened(span, Span(start, footprint));
        }
      }
    }

    method SetDmxStartAddress(to: Word) returns (done: bool)
      requires Valid()
      modifies this
      ensures Valid() && done == old(Whole()).Accepts(to) && Whole() == Readdressed(old(Whole()), to)
      ensures forall i :: 0 <= i < MAX_MOTORS ==>
        saved[i] == if motors[i].Present? && to != old(span.start) then Some(motors[i].span.start) else old(saved)[i]
      ensures savedStart == if done && (kind.Leds? || kind.Monitor?) then Some(to) else old(savedStart)
      ensures span == if done then Span(to, old(span.footprint)) else old(span)
      ensures match kind
        case Board => done
        case Leds(_) => done <==> to >= 1 && (to + span.footprint <= 512 || span.footprint > 512)
        case Monitor => done <==> to + span.footprint <= 512
        case Console => done <==> to == 1
        case Plain => !done
        case Splitter => !done
    {
      match kind {
        case Board =>
          MoveMotors(to);
          return true;
        case Leds(_) =>
          if to != 0 && to <= Unsigned(UNIVERSE_SIZE - span.footprint) {
            Take(to);
            savedStart := Some(to);
            return true;
          }
          return false;
        case Monitor =>
          if to > UNIVERSE_SIZE - span.footprint {
            return false;
          }
          savedStart := Some(to);
          Take(to);
          return true;
        case Console =>
          if to != START_ADDRESS_DEFAULT {
            return false;
          }
          Take(to);
          return true;
        case Plain =>
          return false;
        case Splitter =>
          return false;
      }
    }

    /** A light set without motors takes an address. */
    method Take(to: Word)
      requires Valid() && (kind.Leds? || kind.Monitor? || kind.Console?) && Whole().Accepts(to)
      modifies this`span
      ensures Valid() && Whole() == Readdressed(old(Whole()), to)
    {
      assert MotorsMoved(motors, span.start, to) == motors;
      span := Span(to, span.footprint);
    }

    /** The board takes an address, and so do its motors. */
    method MoveMotors(to: Word)
      requires Valid() && kind.Board?
      modifies this`span, this`motors, this`saved
      ensures Valid() && Whole() == Readdressed(old(Whole()), to)
      ensures forall i :: 0 <= i < MAX_MOTORS ==>
        saved[i] == if motors[i].Present? && to != old(span.start) then Some(motors[i].span.start) else old(saved)[i]
    {
      if to == span.start {
        return;
      }
      for i := 0 to MAX_MOTORS
        invariant Valid() && span == old(span)
        invariant forall j :: 0 <= j < i ==> motors[j] == MotorMoved(old(motors)[j], span.start, to)
        invariant forall j :: i <= j < MAX_MOTORS ==> motors[j] == old(motors)[j]
        invariant forall j :: 0 <= j < MAX_MOTORS ==>
          saved[j] == if j < i && motors[j].Present? then Some(motors[j].span.start) else old(saved)[j]
      {
        if motors[i].Present? {
          var moved := Moved(motors[i].span.start, span.start, to);
          motors := motors[i := Present(Span(moved, motors[i].span.footprint))];
          saved := saved[i := Some(moved)];
        }
      }
      span := Span(to, span.footprint);
    }

    /** What the light set says about one of its slots. The guards of the board and of the LEDs let one offset too
        many through; the board finds no motor there, while the LEDs answer. */
    method GetSlotInfo(slotOffset: Word) returns (slot: SlotReport)
      requires Valid() && Searchable(Whole())
      ensures kind.Board? || slotOffset < span.footprint ==> slot == Answer(Whole(), span.start + slotOffset)
      ensures kind.Leds? && slotOffset <= span.footprint ==>
        slot == Category([0x0205, 0x0206, 0x0207, 0x0212][slotOffset % kind.perLed])
      ensures (kind.Monitor? || kind.Console? || kind.Plain?) ==> slot == Category(0x0001)
      ensures kind.Board? ==> match slot
        case NoSlot => NoneHas(motors, span.start + slotOffset)
        case MotorSlot(i, offset) =>
          && i < MAX_MOTORS && motors[i].Present?
          && motors[i].span.start + offset == span.start + slotOffset && offset < motors[i].span.footprint
          && NoneHas(motors[..i], span.start + slotOffset)
        case Category(_) => false
      ensures (kind.Leds? && slotOffset > span.footprint) || kind.Splitter? ==> slot.NoSlot?
    {
      match kind {
        case Board =>
          slot := MotorInfo(slotOffset);
          MotorAnswerIs(motors, span.start + slotOffset, 0);
          assert motors[0..] == motors;
        case Leds(perLed) =>
          if slotOffset > span.footprint {
            return NoSlot;
          }
          return Category(LedCategory(slotOffset % perLed));
        case Monitor => return Category(INTENSITY);
        case Console => return Category(INTENSITY);
        case Plain => return Category(INTENSITY);
        case Splitter => return NoSlot;
      }
    }

    method MotorInfo(slotOffset: Word) returns (slot: SlotReport)
      requires Valid() && kind.Board? && Searchable(Whole())
      ensures slot == MotorAnswer(motors, span.start + slotOffset, 0)
    {
      if slotOffset >= span.footprint || !span.Proper() {
        NoMotorAnswers(span, motors, span.start + slotOffset, 0);
      }
      if slotOffset > span.footprint {
        return NoSlot;
      }
      var address := Turned(span.start + slotOffset);
      for i := 0 to MAX_MOTORS
        invariant MotorAnswer(motors, span.start + slotOffset, 0) == MotorAnswer(motors, span.start + slotOffset, i)
      {
        SearchedMotor(span, motors, i, slotOffset);
        if Finds(motors[i], address) {
          return MotorSlot(i, Signed(address - motors[i].span.start));
        }
      }
      return NoSlot;
    }
  }

  /** The 16-bit search finds a motor exactly if it occupies the slot, and the right place in it. */
  lemma SearchedMotor(span: Span, motors: seq<Motor>, i: nat, slotOffset: Word)
    requires Consistent(span, motors) && i < |motors| && slotOffset <= span.footprint < 0x8000
    ensures var address := span.start + slotOffset;
      && (Finds(motors[i], Turned(address)) <==> Occupies(motors[i], address))
      && (Finds(motors[i], Turned(address)) ==>
            Signed(Turned(address) - motors[i].span.start) == address - motors[i].span.start)
  {
    if motors[i].Present? {
      MotorCovered(span, motors, i);
      FindsIffOccupies(span, motors, i, span.start + slotOffset);
    }
  }
}
