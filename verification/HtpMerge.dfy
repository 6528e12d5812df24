/** The output buffer of one port: two sources merged, highest takes precedence or latest does. */
module HtpMerge {
  import opened Dmx

  /** Shorter data than a universe, or as much. */
  type Bytes = s: seq<Slot> | |s| <= UNIVERSE_SIZE

  datatype Source = A | B

  datatype Mode = HTP | LTP

  datatype Event =
    | Merge(source: Source, bytes: Bytes, mode: Mode)
    | Clear
    | ClearLength
    | Restore(saved: Universe)

  datatype Buffers = Buffers(a: Universe, b: Universe, data: Universe, length: nat)

  function Zeroed(): Universe {
    seq(UNIVERSE_SIZE, _ => 0)
  }

  function Initial(): Buffers {
    Buffers(Zeroed(), Zeroed(), Zeroed(), 0)
  }

  function Max(x: Slot, y: Slot): Slot {
    if x < y then y else x
  }

  /** The first bytes of `to` replaced. */
  function Overwritten(to: Universe, bytes: Bytes): Universe {
    bytes + to[|bytes|..]
  }

  /** The first n slots of `to` set to the higher of two sources. */
  function Highest(to: Universe, a: Universe, b: Universe, n: nat): Universe
    requires n <= UNIVERSE_SIZE
  {
    seq(UNIVERSE_SIZE, i requires 0 <= i < UNIVERSE_SIZE => if i < n then Max(a[i], b[i]) else to[i])
  }

  function Stored(s: Buffers, source: Source, bytes: Bytes): Buffers {
    match source
    case A => s.(a := Overwritten(s.a, bytes))
    case B => s.(b := Overwritten(s.b, bytes))
  }

  function Merged(s: Buffers, bytes: Bytes, mode: Mode): Buffers {
    match mode
    case HTP => Buffers(s.a, s.b, Highest(s.data, s.a, s.b, |bytes|), |bytes|)
    case LTP => Buffers(s.a, s.b, Overwritten(s.data, bytes), |bytes|)
  }

  function Step(s: Buffers, e: Event): Buffers {
    match e
    case Merge(source, bytes, mode) => Merged(Stored(s, source, bytes), bytes, mode)
    case Clear => Buffers(s.a, s.b, Zeroed(), UNIVERSE_SIZE)
    case ClearLength => s.(length := 0)
    case Restore(saved) => s.(data := saved)
  }

  /** The buffers after a history; the last event is the latest. */
  function Run(history: seq<Event>): Buffers {
    if history == [] then Initial() else Step(Run(history[..|history| - 1]), history[|history| - 1])
  }

  // ---- what a history means for one slot

  /** The value a source last wrote to a slot; zero if it never did. */
  function LastFrom(history: seq<Event>, source: Source, i: nat): Slot {
    if history == [] then 0
    else
      var e := history[|history| - 1];
      if e.Merge? && e.source == source && i < |e.bytes| then e.bytes[i]
      else LastFrom(history[..|history| - 1], source, i)
  }

  predicate Writes(e: Event, i: nat) {
    e.Clear? || e.Restore? || (e.Merge? && i < |e.bytes|)
  }

  /** The events up to and including the last one that wrote to a slot. */
  function UpToLastWrite(history: seq<Event>, i: nat): (h: seq<Event>)
    ensures h <= history
    ensures h != [] ==> Writes(h[|h| - 1], i)
    ensures forall k :: |h| <= k < |history| ==> !Writes(history[k], i)
  {
    if history == [] || Writes(history[|history| - 1], i) then history
    else UpToLastWrite(history[..|history| - 1], i)
  }

  /** The last write leaves the slot at the higher of two source values. */
  predicate LeavesHighest(e: Event, i: nat, a: Slot, b: Slot)
    requires Writes(e, i) && i < UNIVERSE_SIZE
  {
    match e
    case Merge(source, bytes, mode) => mode == HTP || (if source == A then b else a) <= bytes[i]
    case Clear => a == 0 && b == 0
    case Restore(saved) => saved[i] == Max(a, b)
    case ClearLength => false
  }

  predicate ShowsHighest(history: seq<Event>, i: nat)
    requires i < UNIVERSE_SIZE
  {
    var h := UpToLastWrite(history, i);
    h == [] || LeavesHighest(h[|h| - 1], i, LastFrom(history, A, i), LastFrom(history, B, i))
  }

  lemma {:induction false} SourcesHoldLast(history: seq<Event>, i: nat)
    requires i < UNIVERSE_SIZE
    ensures Run(history).a[i] == LastFrom(history, A, i)
    ensures Run(history).b[i] == LastFrom(history, B, i)
  {
    if history != [] {
      SourcesHoldLast(history[..|history| - 1], i);
    }
  }

  /** Events after the last write to a slot leave everything about the slot alone. */
  lemma {:induction false} NothingSince(history: seq<Event>, i: nat)
    requires i < UNIVERSE_SIZE
    ensures var h := UpToLastWrite(history, i);
            && Run(history).data[i] == Run(h).data[i]
            && LastFrom(history, A, i) == LastFrom(h, A, i)
            && LastFrom(history, B, i) == LastFrom(h, B, i)
  {
    if history != [] && !Writes(history[|history| - 1], i) {
      NothingSince(history[..|history| - 1], i);
    }
  }

  /** After any history, a slot shows the higher of what the sources last wrote in exactly these cases:
      nobody wrote to it, or the last write to it left it so. */
  lemma HighestIff(history: seq<Event>, i: nat)
    requires i < UNIVERSE_SIZE
    ensures Run(history).data[i] == Max(LastFrom(history, A, i), LastFrom(history, B, i))
       <==> ShowsHighest(history, i)
  {
    var h := UpToLastWrite(history, i);
    NothingSince(history, i);
    if h != [] {
      LastWriteIff(h, i);
    }
  }

  /** The same for a history that ends with a write to the slot. */
  lemma LastWriteIff(history: seq<Event>, i: nat)
    requires i < UNIVERSE_SIZE && history != [] && Writes(history[|history| - 1], i)
    ensures var a, b := LastFrom(history, A, i), LastFrom(history, B, i);
      Run(history).data[i] == Max(a, b) <==> LeavesHighest(history[|history| - 1], i, a, b)
  {
    var n := |history| - 1;
    SourcesHoldLast(history, i);
    WriteLeavesHighestIff(Run(history[..n]), history[n], i);
  }

  lemma WriteLeavesHighestIff(s: Buffers, e: Event, i: nat)
    requires i < UNIVERSE_SIZE && Writes(e, i)
    ensures var after := Step(s, e); after.data[i] == Max(after.a[i], after.b[i]) <==> LeavesHighest(e, i, after.a[i], after.b[i])
  {
  }

  predicate ShownAfter(e: Event, i: nat, a: Slot, b: Slot, shown: Slot)
    requires i < UNIVERSE_SIZE
  {
    match e
    case Merge(_, bytes, mode) =>
      i < |bytes| && if mode == LTP then shown == bytes[i] else shown >= a && shown >= b && (shown == a || shown == b)
    case Clear => shown == 0
    case Restore(saved) => shown == saved[i]
    case ClearLength => false
  }

  /** After any history, what a slot shows: zero if nobody wrote to it, or else what its last write left there - the
      byte of a merge by latest, the higher of the two sources after one by highest, zero after a clear, or the
      restored value. */
  lemma ShowsLastWrite(history: seq<Event>, i: nat)
    requires i < UNIVERSE_SIZE
    ensures var h := UpToLastWrite(history, i); var shown := Run(history).data[i];
      if h == [] then shown == 0 else ShownAfter(h[|h| - 1], i, LastFrom(history, A, i), LastFrom(history, B, i), shown)
  {
    var h := UpToLastWrite(history, i);
    NothingSince(history, i);
    if h != [] {
      SourcesHoldLast(h, i);
    }
  }

  /** The length that the last event which sets one has set: as many slots as were merged, all after a clear, none
      after the length was cleared. Restoring leaves it. */
  function LastLength(history: seq<Event>): nat {
    if history == [] then 0
    else match history[|history| - 1]
      case Merge(_, bytes, _) => |bytes|
      case Clear => 512
      case ClearLength => 0
      case Restore(_) => LastLength(history[..|history| - 1])
  }

  lemma {:induction false} LengthIsLastSet(history: seq<Event>)
    ensures Run(history).length == LastLength(history) <= 512
  {
    if history != [] {
      LengthIsLastSet(history[..|history| - 1]);
    }
  }

  predicate OnlyHtp(history: seq<Event>) {
    forall k :: 0 <= k < |history| ==> history[k].ClearLength? || (history[k].Merge? && history[k].mode == HTP)
  }

  /** However HTP merges of whatever lengths are interleaved, all 512 slots show the higher source. */
  lemma HtpShowsHighest(history: seq<Event>, i: nat)
    requires OnlyHtp(history) && i < UNIVERSE_SIZE
    ensures Run(history).data[i] == Max(LastFrom(history, A, i), LastFrom(history, B, i))
  {
    HighestIff(history, i);
  }

  // ---- the port

  class OutputPort {
    const sourceA: array<Slot>
    const sourceB: array<Slot>
    const data: array<Slot>
    var length: nat

    ghost predicate Valid()
      reads this, sourceA, sourceB, data
    {
      && sourceA.Length == sourceB.Length == data.Length == UNIVERSE_SIZE
      && sourceA != sourceB && sourceA != data && sourceB != data
      && length <= UNIVERSE_SIZE
    }

    ghost function Contents(): Buffers
      requires Valid()
      reads this, sourceA, sourceB, data
    {
      Buffers(sourceA[..], sourceB[..], data[..], length)
    }

    constructor ()
      ensures Valid() && fresh(sourceA) && fresh(sourceB) && fresh(data)
      ensures Contents() == Initial()
    {
      sourceA := new Slot[UNIVERSE_SIZE](_ => 0);
      sourceB := new Slot[UNIVERSE_SIZE](_ => 0);
      data := new Slot[UNIVERSE_SIZE](_ => 0);
      length := 0;
      new;
      assert sourceA[..] == Zeroed() && sourceB[..] == Zeroed() && data[..] == Zeroed();
    }

    static method Copy(to: array<Slot>, bytes: Bytes)
      requires to.Length == UNIVERSE_SIZE
      modifies to
      ensures to[..] == Overwritten(old(to[..]), bytes)
    {
      ghost var was: Universe := to[..];
      for i := 0 to |bytes|
        invariant to[..] == Overwritten(was, bytes[..i])
      {
        to[i] := bytes[i];
      }
      assert bytes[..|bytes|] == bytes;
    }

    method TakeHighest(n: nat)
      requires Valid() && n <= UNIVERSE_SIZE
      modifies data
      ensures Valid()
      ensures data[..] == Highest(old(data[..]), sourceA[..], sourceB[..], n)
    {
      ghost var was: Universe := data[..];
      for i := 0 to n
        invariant data[..] == Highest(was, sourceA[..], sourceB[..], i)
      {
        data[i] := Max(sourceA[i], sourceB[i]);
      }
    }

    method MergeSourceA(bytes: Bytes, mode: Mode)
      requires Valid()
      modifies this, sourceA, data
      ensures Valid()
      ensures Contents() == Step(old(Contents()), Merge(A, bytes, mode))
    {
      Copy(sourceA, bytes);
      length := |bytes|;
      if mode == HTP {
        TakeHighest(length);
        return;
      }
      Copy(data, bytes);
    }

    method MergeSourceB(bytes: Bytes, mode: Mode)
      requires Valid()
      modifies this, sourceB, data
      ensures Valid()
      ensures Contents() == Step(old(Contents()), Merge(B, bytes, mode))
    {
      Copy(sourceB, bytes);
      length := |bytes|;
      if mode == HTP {
        TakeHighest(length);
        return;
      }
      Copy(data, bytes);
    }

    method OutputClear()
      requires Valid()
      modifies this, data
      ensures Valid()
      ensures Contents() == Step(old(Contents()), Clear)
    {
      Copy(data, Zeroed());
      length := UNIVERSE_SIZE;
    }

    method ClearLength()
      requires Valid()
      modifies this
      ensures Valid()
      ensures Contents() == Step(old(Contents()), Event.ClearLength)
    {
      length := 0;
    }

    method Restore(saved: Universe)
      requires Valid()
      modifies data
      ensures Valid()
      ensures Contents() == Step(old(Contents()), Event.Restore(saved))
    {
      Copy(data, saved);
    }
  }
}
