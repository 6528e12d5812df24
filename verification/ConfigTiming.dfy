/** When the flash device is touched: the quiet time before erasing and writing. */
module ConfigTiming {
  import opened Bytes
  import opened ConfigLayout
  import opened ConfigCache
  import opened ConfigDurability

  const WRAP: int := 0x1_0000_0000

  /** Hardware milliseconds: true time as a 32-bit counter shows it. */
  function Millis(t: nat): nat {
    t % WRAP
  }

  /** The 32-bit difference never exceeds the true one, however often the counter wrapped. */
  lemma ElapsedIsLowerBound(t: nat, since: nat)
    requires since <= t
    ensures Elapsed(Millis(t), Millis(since)) <= t - since
    ensures t - since < WRAP ==> Elapsed(Millis(t), Millis(since)) == t - since
  {
    var a, b := t / WRAP, since / WRAP;
    assert t == a * WRAP + Millis(t) && since == b * WRAP + Millis(since);
    WrapOnce(Millis(t) - Millis(since), a - b);
  }

  lemma WrapOnce(d: int, turns: int)
    requires -WRAP < d < WRAP && d + turns * WRAP >= 0
    ensures d % WRAP <= d + turns * WRAP
    ensures d + turns * WRAP < WRAP ==> d % WRAP == d + turns * WRAP
  {
    if d >= 0 {
      assert d % WRAP == d;
    } else {
      assert d % WRAP == d + WRAP;
    }
  }

  /** An event together with the true times at which it begins and at which the call inside it
      reads the clock (the same for events that do not). */
  datatype Timed = Timed(event: Event, begins: nat, reading: nat)

  /** The cache with a record of when it was last disturbed and when the flash was last erased. */
  datatype History = History(cache: Cache, now: nat, disturbed: nat, waitSince: nat, erased: nat)

  predicate Follows(h: History, t: Timed) {
    && h.now <= t.begins <= t.reading
    && (t.event.Flash? ==> t.event.millis == Millis(t.reading))
    && Legal(t.event)
  }

  predicate CopyStores(c: Cache, first: nat, at: nat, default: seq<Byte>, doUpdate: bool)
    requires first + |default| <= SIZE && at + |default| <= SIZE
  {
    doUpdate && Zeros(c.ram[at..at + |default|]) && !Holds(c.ram, first, default)
  }

  predicate UtcStores(c: Cache, hours: int, minutes: nat) {
    UtcOffset(hours, minutes).Some? && WordAt(c.ram, SIGNATURE_SIZE) != WordOf(UtcOffset(hours, minutes).value)
  }

  /** A mutator that found something to change, or a delay while a flush is pending. */
  predicate Disturbs(c: Cache, e: Event)
    requires Legal(e)
  {
    match e
    case Update(store, offset, data, _, _) => !Holds(c.ram, SetListAt(store) + offset, data)
    case Copy(store, default, offset, doUpdate) =>
      CopyStores(c, SetListAt(store), SetListAt(store) + offset, default, doUpdate)
    case ResetSetList(_) => true
    case SetUtc(hours, minutes) => UtcStores(c, hours, minutes)
    case Delay => c.state != Idle
    case Flash(_, _) => false
  }

  /** Either nothing happens at all, or the image is marked changed; flash and clock are left alone. */
  predicate MarksIff(c: Cache, d: Cache, disturbs: bool) {
    && (if disturbs then d.state == Changed else d == c)
    && d.waitMillis == c.waitMillis && d.flash == c.flash
  }

  lemma UpdateMarks(c: Cache, at: nat, data: seq<Byte>, word: nat, setList: Word)
    requires at + |data| <= SIZE && word + 4 <= SIZE
    ensures MarksIff(c, UpdatedAt(c, at, data, word, setList), !Holds(c.ram, at, data))
  {
  }

  lemma CopyMarks(c: Cache, first: nat, at: nat, default: seq<Byte>, doUpdate: bool)
    requires first <= at && at + |default| <= SIZE && first + 4 <= SIZE
    ensures MarksIff(c, CopiedAt(c, first, at, default, doUpdate).0, CopyStores(c, first, at, default, doUpdate))
  {
    UpdateMarks(c, first, default, first, ZERO);
  }

  lemma UtcMarks(c: Cache, hours: int, minutes: nat)
    ensures MarksIff(c, UtcSet(c, hours, minutes).0, UtcStores(c, hours, minutes))
  {
  }

  lemma ResetMarks(c: Cache, store: Store)
    ensures MarksIff(c, SetListReset(c, store), true)
  {
  }

  lemma DelayMarks(c: Cache)
    ensures MarksIff(c, Delayed(c), c.state != Idle)
  {
  }

  /** A mutator that disturbs marks the image changed; any other changes nothing at all. */
  lemma MutatorsDisturbOrDoNothing(c: Cache, e: Event)
    requires Legal(e) && !e.Flash?
    ensures MarksIff(c, Step(c, e), Disturbs(c, e))
  {
    match e
    case Update(store, offset, data, setList, offsetSetList) =>
      UpdateMarks(c, SetListAt(store) + offset, data, SetListAt(store) + offsetSetList, setList);
    case Copy(store, default, offset, doUpdate) =>
      CopyMarks(c, SetListAt(store), SetListAt(store) + offset, default, doUpdate);
    case ResetSetList(store) => ResetMarks(c, store);
    case SetUtc(hours, minutes) => UtcMarks(c, hours, minutes);
    case Delay => DelayMarks(c);
  }

  predicate Erases(c: Cache, e: Event) {
    e.Flash? && c.state == Erasing
  }

  predicate Writes(c: Cache, e: Event) {
    e.Flash? && c.state == Writing
  }

  function Record(h: History, t: Timed): History
    requires Follows(h, t)
  {
    var c := h.cache;
    History(Step(c, t.event), t.reading,
            if Disturbs(c, t.event) then t.reading else h.disturbed,
            if t.event.Flash? && (c.state == Changed || (c.state == Erasing && t.event.outcome.Done?)) then t.reading else h.waitSince,
            if t.event.Flash? && c.state == Erasing && t.event.outcome.Done? then t.reading else h.erased)
  }

  /** Every erase in the run begins at least 100 ms after the last disturbance before it, and
      every write at least 100 ms after the erase that made room for it. */
  predicate Quiet(h: History, run: seq<Timed>)
    decreases |run|
  {
    run != [] && Follows(h, run[0]) ==>
      && (Erases(h.cache, run[0].event) ==> run[0].begins - h.disturbed >= 100)
      && (Writes(h.cache, run[0].event) ==> run[0].begins - h.erased >= 100)
      && Quiet(Record(h, run[0]), run[1..])
  }

  predicate Possible(h: History, run: seq<Timed>)
    decreases |run|
  {
    run != [] ==> Follows(h, run[0]) && Possible(Record(h, run[0]), run[1..])
  }

  /** What the states say about true time. */
  ghost predicate TimeInv(h: History) {
    && h.disturbed <= h.now && h.waitSince <= h.now && h.erased <= h.now
    && match h.cache.state
       case ChangedWaiting => h.disturbed <= h.waitSince && h.cache.waitMillis == Millis(h.waitSince)
       case Erasing => h.disturbed + QUIET_MILLIS <= h.now
       case ErasedWaiting => h.erased == h.waitSince && h.cache.waitMillis == Millis(h.waitSince)
       case Erased => h.erased + QUIET_MILLIS <= h.now
       case Writing => h.erased + QUIET_MILLIS <= h.now
       case _ => true
  }

  lemma RecordKeepsTimeInv(h: History, t: Timed)
    requires TimeInv(h) && Follows(h, t)
    ensures TimeInv(Record(h, t))
  {
    if t.event.Flash? {
      FlashKeepsTimeInv(h, t);
    } else {
      MutatorKeepsTimeInv(h, t);
    }
  }

  lemma FlashKeepsTimeInv(h: History, t: Timed)
    requires TimeInv(h) && Follows(h, t) && t.event.Flash?
    ensures TimeInv(Record(h, t))
  {
    if h.cache.state == ChangedWaiting || h.cache.state == ErasedWaiting {
      ElapsedIsLowerBound(t.reading, h.waitSince);
    }
  }

  lemma MutatorKeepsTimeInv(h: History, t: Timed)
    requires TimeInv(h) && Follows(h, t) && !t.event.Flash?
    ensures TimeInv(Record(h, t))
  {
    MutatorsDisturbOrDoNothing(h.cache, t.event);
  }

  /** The quiet time over whole runs, clock wrap included: starting from power-up at any time,
      whatever mutators and flush calls come at whatever times, no erase begins less than
      100 ms after the last disturbance and no write less than 100 ms after its erase. */
  lemma {:induction false} RunIsQuiet(h: History, run: seq<Timed>)
    requires TimeInv(h) && Possible(h, run)
    ensures Quiet(h, run)
    decreases |run|
  {
    if run != [] {
      RecordKeepsTimeInv(h, run[0]);
      RunIsQuiet(Record(h, run[0]), run[1..]);
    }
  }

  lemma PowerUpTimeInv(flash: Image, t: nat)
    ensures TimeInv(History(Loaded(flash), t, t, t, t))
  {
  }
}
