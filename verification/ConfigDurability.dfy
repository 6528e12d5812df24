/** What the cache guarantees over every interleaving of mutators and flush calls. */
module ConfigDurability {
  import opened Bytes
  import opened ConfigLayout
  import opened ConfigCache

  datatype Event =
    | Update(store: Store, offset: nat, data: seq<Byte>, setList: Word, offsetSetList: nat)
    | Copy(store: Store, default: seq<Byte>, offset: nat, doUpdate: bool)
    | ResetSetList(store: Store)
    | SetUtc(hours: int, minutes: nat)
    | Delay
    | Flash(millis: nat, outcome: Outcome)

  predicate Legal(e: Event) {
    match e
    case Update(store, offset, data, _, offsetSetList) => Addressable(store, offset, |data|, offsetSetList)
    case Copy(store, default, offset, _) => offset + |default| <= SizeOf(store)
    case _ => true
  }

  function Step(c: Cache, e: Event): Cache
    requires Legal(e)
  {
    match e
    case Update(store, offset, data, setList, offsetSetList) => Updated(c, store, offset, data, setList, offsetSetList)
    case Copy(store, default, offset, doUpdate) => Copied(c, store, default, offset, doUpdate).0
    case ResetSetList(store) => SetListReset(c, store)
    case SetUtc(hours, minutes) => UtcSet(c, hours, minutes).0
    case Delay => Delayed(c)
    case Flash(millis, outcome) => Flashed(c, millis, outcome).0
  }

  function Run(c: Cache, events: seq<Event>): Cache
    requires forall e :: e in events ==> Legal(e)
    decreases |events|
  {
    if events == [] then c else Run(Step(c, events[0]), events[1..])
  }

  /** A run goes on event by event. */
  lemma {:induction false} RunAppend(c: Cache, events: seq<Event>, e: Event)
    requires (forall x :: x in events ==> Legal(x)) && Legal(e)
    ensures Run(c, events + [e]) == Step(Run(c, events), e)
    decreases |events|
  {
    if events == [] {
      assert ([] + [e])[1..] == [];
      assert Run(Step(c, e), []) == Step(c, e);
    } else {
      assert (events + [e])[1..] == events[1..] + [e];
      RunAppend(Step(c, events[0]), events[1..], e);
    }
  }

  // ---- the invariant

  ghost predicate SameUsed(a: Image, b: Image) {
    forall i :: 0 <= i < USED ==> a[i] == b[i]
  }

  /** Loading the flash now would give this RAM image, as far as it is ever written. */
  ghost predicate Durable(c: Cache) {
    SameUsed(Loaded(c.flash).ram, Normalised(c.ram))
  }

  ghost predicate Inv(c: Cache) {
    && Signed(c.ram)
    && !AllOnes(WordAt(c.ram, SIGNATURE_SIZE))
    && match c.state
       case Idle => Durable(c)
       case ErasedWaiting => forall i :: 0 <= i < SIZE ==> c.flash[i] == ERASED
       case Erased => forall i :: 0 <= i < SIZE ==> c.flash[i] == ERASED
       case Writing => forall i :: 0 <= i < SIZE ==> c.flash[i] == ERASED || (i < USED && c.flash[i] == c.ram[i])
       case _ => true
  }

  // ---- normalisation

  predicate Apart(ats: seq<nat>) {
    forall j, k :: 0 <= j < k < |ats| ==> ats[j] + 4 <= ats[k] || ats[k] + 4 <= ats[j]
  }

  lemma {:induction false} OnlyWordsCleared(a: Image, ats: seq<nat>, i: nat)
    requires InImage(ats) && i < SIZE && forall k :: 0 <= k < |ats| ==> !(ats[k] <= i < ats[k] + 4)
    ensures ClearWords(a, ats)[i] == a[i]
  {
    if ats != [] {
      OnlyWordsCleared(a, ats[..|ats| - 1], i);
    }
  }

  lemma {:induction false} WordsCleared(a: Image, ats: seq<nat>, k: nat)
    requires InImage(ats) && Apart(ats) && k < |ats|
    ensures WordAt(ClearWords(a, ats), ats[k]) == if AllOnes(WordAt(a, ats[k])) then ZERO else WordAt(a, ats[k])
  {
    var n := |ats| - 1;
    if k < n {
      WordsCleared(a, ats[..n], k);
      OtherWordStays(ClearWords(a, ats[..n]), ats[n], ats[k]);
    } else {
      forall i | ats[n] <= i < ats[n] + 4 ensures ClearWords(a, ats[..n])[i] == a[i] {
        OnlyWordsCleared(a, ats[..n], i);
      }
      SameWord(ClearWords(a, ats[..n]), a, ats[n]);
      WordCleared(ClearWords(a, ats[..n]), ats[n]);
    }
  }

  lemma WordCleared(a: Image, at: nat)
    requires at + 4 <= SIZE
    ensures WordAt(ClearWord(a, at), at) == if AllOnes(WordAt(a, at)) then ZERO else WordAt(a, at)
  {
  }

  lemma OtherWordStays(a: Image, at: nat, other: nat)
    requires at + 4 <= SIZE && other + 4 <= SIZE && (at + 4 <= other || other + 4 <= at)
    ensures WordAt(ClearWord(a, at), other) == WordAt(a, other)
  {
    SameWord(ClearWord(a, at), a, other);
  }

  lemma SameWord(a: Image, b: Image, at: nat)
    requires at + 4 <= SIZE && forall i :: at <= i < at + 4 ==> a[i] == b[i]
    ensures WordAt(a, at) == WordAt(b, at)
  {
  }

  /** Clearing words of the used part looks at the used part only. */
  lemma {:induction false} ClearedOfSame(a: Image, b: Image, ats: seq<nat>)
    requires InImage(ats) && SameUsed(a, b) && forall k :: 0 <= k < |ats| ==> ats[k] + 4 <= USED
    ensures SameUsed(ClearWords(a, ats), ClearWords(b, ats))
  {
    if ats != [] {
      var n := |ats| - 1;
      ClearedOfSame(a, b, ats[..n]);
      assert WordAt(ClearWords(a, ats[..n]), ats[n]) == WordAt(ClearWords(b, ats[..n]), ats[n]);
    }
  }

  lemma {:induction false} NothingToClear(a: Image, ats: seq<nat>)
    requires InImage(ats) && forall k :: 0 <= k < |ats| ==> !AllOnes(WordAt(a, ats[k]))
    ensures ClearWords(a, ats) == a
  {
    if ats != [] {
      NothingToClear(a, ats[..|ats| - 1]);
    }
  }

  lemma {:induction false} ErasedWordChanges(a: Image, ats: seq<nat>, k: nat)
    requires InImage(ats) && Apart(ats) && k < |ats| && ats[k] < USED && AllOnes(WordAt(a, ats[k]))
    ensures !SameUsed(ClearWords(a, ats), a)
  {
    WordsCleared(a, ats, k);
    assert WordAt(ClearWords(a, ats), ats[k])[0] == 0 && WordAt(a, ats[k])[0] == 0xFF;
  }

  /** The words to inspect, told by where they are. */
  ghost predicate AreLoadedWords(ats: seq<nat>) {
    |ats| == LAST + 1 && ats[LAST] == SIGNATURE_SIZE && forall s: Store :: ats[s] == SetListAt(s)
  }

  lemma WordInUsed(ats: seq<nat>, k: nat)
    requires AreLoadedWords(ats) && k <= LAST
    ensures 4 <= ats[k] && ats[k] + 4 <= USED
  {
    if k < LAST {
      assert ats[k] == SetListAt(k);
    }
  }

  lemma TwoWordsApart(ats: seq<nat>, j: nat, k: nat)
    requires AreLoadedWords(ats) && j < k <= LAST
    ensures ats[j] + 4 <= ats[k] || ats[k] + 4 <= ats[j]
  {
    var s: Store := j;
    assert ats[s] == SetListAt(s);
    if k < LAST {
      var t: Store := k;
      assert ats[t] == SetListAt(t);
      StoresApart(s, t);
    }
  }

  lemma StoresApart(s: Store, t: Store)
    requires s < t
    ensures SetListAt(s) + 4 <= SetListAt(t)
  {
    OffsetsIncrease(s, t);
    AtLeastAWord(s);
  }

  lemma AtLeastAWord(s: Store)
    ensures SizeOf(s) >= 4
  {
  }

  lemma WordsApart(ats: seq<nat>)
    requires AreLoadedWords(ats)
    ensures Apart(ats) && forall k :: 0 <= k <= LAST ==> 4 <= ats[k] && ats[k] + 4 <= USED
  {
    forall j, k | 0 <= j < k <= LAST ensures ats[j] + 4 <= ats[k] || ats[k] + 4 <= ats[j] {
      TwoWordsApart(ats, j, k);
    }
    forall k | 0 <= k <= LAST ensures 4 <= ats[k] && ats[k] + 4 <= USED {
      WordInUsed(ats, k);
    }
  }

  lemma LoadedWordsApart()
    ensures Apart(LoadedWords())
    ensures forall k :: 0 <= k <= LAST ==> 4 <= LoadedWords()[k] && LoadedWords()[k] + 4 <= USED
  {
    WordsApart(LoadedWords());
  }

  /** No store's set list reads all ones. */
  ghost predicate SetListsWritten(a: Image) {
    forall s: Store :: !AllOnes(WordAt(a, SetListAt(s)))
  }

  /** Normalising an image whose environment word is written changes it exactly when some
      store's set list reads all ones. */
  lemma NormalisedIffSetListsWritten(a: Image)
    requires !AllOnes(WordAt(a, SIGNATURE_SIZE))
    ensures SameUsed(Normalised(a), a) <==> SetListsWritten(a)
  {
    LoadedWordsApart();
    if SetListsWritten(a) {
      NothingErased(a);
    } else {
      var s: Store :| AllOnes(WordAt(a, SetListAt(s)));
      assert LoadedWords()[s] == SetListAt(s);
      ErasedWordChanges(a, LoadedWords(), s);
    }
  }

  lemma NothingErasedAt(a: Image, k: nat)
    requires SetListsWritten(a) && !AllOnes(WordAt(a, SIGNATURE_SIZE)) && k <= LAST
    ensures !AllOnes(WordAt(a, LoadedWords()[k]))
  {
    if k < LAST {
      assert LoadedWords()[k] == SetListAt(k);
    }
  }

  lemma NothingErased(a: Image)
    requires SetListsWritten(a) && !AllOnes(WordAt(a, SIGNATURE_SIZE))
    ensures Normalised(a) == a
  {
    var ats := LoadedWords();
    forall k | 0 <= k < |ats| ensures !AllOnes(WordAt(a, ats[k])) {
      NothingErasedAt(a, k);
    }
    NothingToClear(a, ats);
  }

  lemma NormalisedWord(a: Image, k: nat)
    requires k <= LAST
    ensures !AllOnes(WordAt(Normalised(a), LoadedWords()[k]))
  {
    LoadedWordsApart();
    WordsCleared(a, LoadedWords(), k);
  }

  lemma EndsNotNormalised(a: Image, i: nat)
    requires i < 4 || USED <= i < SIZE
    ensures Normalised(a)[i] == a[i]
  {
    LoadedWordsApart();
    OnlyWordsCleared(a, LoadedWords(), i);
  }

  lemma NormalisedKeepsSignature(a: Image)
    ensures Signed(Normalised(a)) == Signed(a)
  {
    forall i | 0 <= i < 4 ensures Normalised(a)[i] == a[i] {
      EndsNotNormalised(a, i);
    }
    assert Normalised(a)[..4] == a[..4];
  }

  /** A normalised image has nothing left to normalise. */
  lemma NormalisedIsNormal(a: Image)
    ensures SetListsWritten(Normalised(a)) && !AllOnes(WordAt(Normalised(a), SIGNATURE_SIZE))
    ensures Normalised(Normalised(a)) == Normalised(a)
  {
    forall s: Store ensures !AllOnes(WordAt(Normalised(a), SetListAt(s))) {
      NormalisedWord(a, s);
      assert LoadedWords()[s] == SetListAt(s);
    }
    NormalisedWord(a, LAST);
    NothingErased(Normalised(a));
  }

  // ---- the invariant holds initially and is kept by every event

  lemma LoadedInv(flash: Image)
    ensures Inv(Loaded(flash))
  {
    var raw := Repaired(flash);
    assert raw[..4] == SIGNATURE;
    NormalisedIsNormal(raw);
    NormalisedKeepsSignature(raw);
  }

  /** Writing to the stores leaves signature and environment alone. */
  lemma StoresLeaveHead(a: Image, b: Image)
    requires forall i :: 0 <= i < OFFSET_STORES ==> a[i] == b[i]
    ensures Signed(a) == Signed(b)
    ensures WordAt(a, SIGNATURE_SIZE) == WordAt(b, SIGNATURE_SIZE)
  {
    assert a[..4] == b[..4];
  }

  lemma UtcWordNotErased(hours: int, minutes: nat)
    requires UtcOffset(hours, minutes).Some?
    ensures !AllOnes(WordOf(UtcOffset(hours, minutes).value))
  {
    var n := UtcOffset(hours, minutes).value;
    assert n % 2 == 0;
    LowBit(n);
  }

  lemma LowBit(n: int)
    requires n % 2 == 0
    ensures ByteOf(n) != 0xFF
  {
    assert !Bit(n, 0);
  }

  lemma WrittenBytes(c: Cache)
    requires Inv(c) && c.state == Writing
    ensures var flash := WriteFlash(c.flash, c.ram, Done);
      && (forall i :: 0 <= i < USED ==> flash[i] == c.ram[i])
      && (forall i :: USED <= i < SIZE ==> flash[i] == ERASED)
      && Signed(flash)
  {
  }

  /** The write that completes a flush leaves the RAM image in flash. */
  lemma WrittenIsDurable(c: Cache)
    requires Inv(c) && c.state == Writing
    ensures Durable(c.(flash := WriteFlash(c.flash, c.ram, Done)))
  {
    WrittenBytes(c);
    LoadedWordsApart();
    ClearedOfSame(WriteFlash(c.flash, c.ram, Done), c.ram, LoadedWords());
  }

  lemma PartialWriteKeepsInv(c: Cache, o: Outcome)
    requires Inv(c) && c.state == Writing
    ensures Inv(c.(flash := WriteFlash(c.flash, c.ram, o)))
  {
    var flash := WriteFlash(c.flash, c.ram, o);
    forall i | 0 <= i < SIZE ensures flash[i] == ERASED || (i < USED && flash[i] == c.ram[i]) {
      if i < USED {
        assert 0xFF & c.ram[i] == c.ram[i] && c.ram[i] & c.ram[i] == c.ram[i];
      }
    }
  }

  lemma EnvWritten(a: Image, word: Word)
    ensures var ram := Overwrite(a, SIGNATURE_SIZE, word); ram[..4] == a[..4] && WordAt(ram, SIGNATURE_SIZE) == word
  {
  }

  lemma SetUtcKeepsInv(c: Cache, hours: int, minutes: nat)
    requires Inv(c)
    ensures Inv(UtcSet(c, hours, minutes).0)
  {
    if UtcOffset(hours, minutes).Some? {
      UtcWordNotErased(hours, minutes);
      EnvWritten(c.ram, WordOf(UtcOffset(hours, minutes).value));
    }
  }

  /** An operation on the stores that either does nothing or marks the image changed. */
  lemma StoreWriteKeepsInv(c: Cache, d: Cache)
    requires Inv(c) && (d == c || d.state == Changed)
    requires forall i :: 0 <= i < OFFSET_STORES ==> d.ram[i] == c.ram[i]
    ensures Inv(d)
  {
    StoresLeaveHead(c.ram, d.ram);
  }

  lemma UpdateKeepsInv(c: Cache, at: nat, data: seq<Byte>, word: nat, setList: Word)
    requires Inv(c)
    requires OFFSET_STORES <= at && at + |data| <= SIZE && OFFSET_STORES <= word && word + 4 <= SIZE
    ensures Inv(UpdatedAt(c, at, data, word, setList))
  {
    StoreWriteKeepsInv(c, UpdatedAt(c, at, data, word, setList));
  }

  lemma FlashKeepsInv(c: Cache, millis: nat, o: Outcome)
    requires Inv(c)
    ensures Inv(Flashed(c, millis, o).0)
  {
    if c.state == Writing {
      if o.Done? {
        WrittenIsDurable(c);
      } else {
        PartialWriteKeepsInv(c, o);
      }
    }
  }

  /** A call of the flush asks to be called again exactly as long as the store is not idle. */
  lemma FlashedAgainIff(c: Cache, millis: nat, o: Outcome)
    ensures var (d, again) := Flashed(c, millis, o); again <==> d.state != Idle
  {
  }

  lemma CopyKeepsInv(c: Cache, store: Store, default: seq<Byte>, offset: nat, doUpdate: bool)
    requires Inv(c) && offset + |default| <= SizeOf(store)
    ensures Inv(Copied(c, store, default, offset, doUpdate).0)
  {
    UpdateKeepsInv(c, SetListAt(store), default, SetListAt(store), ZERO);
  }

  lemma ResetKeepsInv(c: Cache, store: Store)
    requires Inv(c)
    ensures Inv(SetListReset(c, store))
  {
    StoreWriteKeepsInv(c, SetListReset(c, store));
  }

  lemma DelayKeepsInv(c: Cache)
    requires Inv(c)
    ensures Inv(Delayed(c))
  {
  }

  lemma StepKeepsInv(c: Cache, e: Event)
    requires Inv(c) && Legal(e)
    ensures Inv(Step(c, e))
  {
    match e
    case SetUtc(hours, minutes) => SetUtcKeepsInv(c, hours, minutes);
    case Flash(millis, o) => FlashKeepsInv(c, millis, o);
    case Update(store, offset, data, setList, offsetSetList) =>
      UpdateKeepsInv(c, SetListAt(store) + offset, data, SetListAt(store) + offsetSetList, setList);
    case Copy(store, default, offset, doUpdate) => CopyKeepsInv(c, store, default, offset, doUpdate);
    case ResetSetList(store) => ResetKeepsInv(c, store);
    case Delay => DelayKeepsInv(c);
  }

  lemma {:induction false} RunKeepsInv(c: Cache, events: seq<Event>)
    requires Inv(c) && forall e :: e in events ==> Legal(e)
    ensures Inv(Run(c, events))
    decreases |events|
  {
    if events != [] {
      StepKeepsInv(c, events[0]);
      RunKeepsInv(Step(c, events[0]), events[1..]);
    }
  }

  /** Durability: power up with any flash contents, interleave mutators and flush calls in any
      way; whenever the cache is idle, powering up again yields the current RAM image, with
      erased set lists read as zero - hence the very same image exactly when no set list
      reads all ones. */
  lemma IdleIsDurable(flash: Image, events: seq<Event>)
    requires forall e :: e in events ==> Legal(e)
    requires Run(Loaded(flash), events).state == Idle
    ensures var c := Run(Loaded(flash), events); var again := Loaded(c.flash);
      && SameUsed(again.ram, Normalised(c.ram))
      && (SameUsed(again.ram, c.ram) <==> SetListsWritten(c.ram))
  {
    LoadedInv(flash);
    RunKeepsInv(Loaded(flash), events);
    NormalisedIffSetListsWritten(Run(Loaded(flash), events).ram);
  }

  /** The bytes behind the last store are erased but never written: the whole image, and not
      only its used part, survives a completed flush exactly when RAM holds the erased value
      in all of them. */
  lemma TailSurvivesIffErased(c: Cache)
    requires Inv(c) && c.state == Writing
    ensures var flash := WriteFlash(c.flash, c.ram, Done);
      Loaded(flash).ram == Normalised(c.ram) <==> forall i :: USED <= i < SIZE ==> c.ram[i] == ERASED
  {
    var flash := WriteFlash(c.flash, c.ram, Done);
    WrittenBytes(c);
    WrittenIsDurable(c);
    forall i | USED <= i < SIZE ensures Normalised(flash)[i] == ERASED && Normalised(c.ram)[i] == c.ram[i] {
      EndsNotNormalised(flash, i);
      EndsNotNormalised(c.ram, i);
    }
    assert Loaded(flash).ram == Normalised(flash);
  }
}
