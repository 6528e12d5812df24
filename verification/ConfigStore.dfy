/** The configuration store as the program holds it: a RAM image and a flash device that are
    changed in place, each operation proved to do what its function in ConfigCache says. */
module ConfigStore {
  import opened Bytes
  import opened ConfigLayout
  import opened ConfigCache
  import opened Text
  import opened ConfigContents
  import opened ConfigDurability
  import opened ConfigTiming

  /** The flash sectors of the store.  A call may finish or get only part of the way; `patience` is the
      number of calls that the device will still leave unfinished in a row, at most. */
  class StoreDevice {
    const cells: array<Byte>
    var patience: nat

    constructor (contents: Image)
      ensures fresh(cells) && cells.Length == SIZE && cells[..] == contents
    {
      cells := new Byte[SIZE](i requires 0 <= i < SIZE => contents[i]);
      patience := *;
      new;
      assert cells[..] == contents;
    }

    method Read(buffer: array<Byte>)
      requires cells.Length == buffer.Length == SIZE
      modifies buffer
      ensures buffer[..] == old(cells[..])
    {
      forall i | 0 <= i < SIZE {
        buffer[i] := cells[i];
      }
    }

    method Finishes() returns (done: bool)
      modifies this
      ensures !done ==> patience < old(patience)
    {
      done := *;
      if patience == 0 {
        done := true;
      }
      if done {
        patience := *;
      } else {
        patience := patience - 1;
      }
    }

    method Erase() returns (done: bool, ghost o: Outcome)
      requires cells.Length == SIZE
      modifies this, cells
      ensures o.Done? == done && (!done ==> patience < old(patience))
      ensures cells[..] == EraseFlash(old(cells[..]), o)
      ensures forall i :: 0 <= i < SIZE ==> cells[i] == if done || i in o.touched then 0xFF else old(cells[i])
    {
      var touched: set<nat> := *;
      done := Finishes();
      o := if done then Done else Pending(touched);
      forall i | 0 <= i < SIZE && (done || i in touched) {
        cells[i] := ERASED;
      }
    }

    method Write(buffer: array<Byte>) returns (done: bool, ghost o: Outcome)
      requires cells.Length == buffer.Length == SIZE && buffer != cells
      modifies this, cells
      ensures o.Done? == done && (!done ==> patience < old(patience))
      ensures cells[..] == WriteFlash(old(cells[..]), buffer[..], o)
      ensures !done ==> forall i :: 0 <= i < SIZE && i !in o.touched ==> cells[i] == old(cells[i])
    {
      var touched: set<nat> := *;
      done := Finishes();
      o := if done then Done else Pending(touched);
      forall i | 0 <= i < USED && (done || i in touched) {
        cells[i] := cells[i] & buffer[i];
      }
    }
  }

  /** How far a flush still has to go, state by state. */
  function StatesLeft(state: State): nat {
    match state
    case Idle => 0
    case Writing => 1
    case Erased => 2
    case ErasedWaiting => 3
    case Erasing => 4
    case ChangedWaiting => 5
    case Changed => 6
  }

  /** Within a waiting state, the milliseconds of the quiet time that are left. */
  function QuietLeft(time: nat, since: nat): nat {
    if since <= time < since + QUIET_MILLIS then since + QUIET_MILLIS - time else 0
  }

  predicate Waits(state: State) {
    state == ChangedWaiting || state == ErasedWaiting
  }

  predicate UsesDevice(state: State) {
    state == Erasing || state == Writing
  }

  /** What bounds the calls in one state. */
  function CallsLeft(state: State, time: nat, since: nat, patience: nat): nat {
    if Waits(state) then QuietLeft(time, since) else if UsesDevice(state) then patience else 0
  }

  /** A waiting state reads the clock within 2^32 ms of when the wait began. */
  predicate WaitIsReadable(c: Cache, time: nat, since: nat) {
    Waits(c.state) ==> since <= time < since + WRAP && c.waitMillis == Millis(since)
  }

  /** One call of the flush: it moves on to the next state, or stays and has fewer calls left. */
  lemma FlushAdvances(c: Cache, time: nat, since: nat, o: Outcome, patience: nat, later: nat, next: nat)
    requires c.state != Idle && WaitIsReadable(c, time, since)
    requires time < later <= time + WRAP - QUIET_MILLIS
    requires UsesDevice(c.state) && o.Pending? ==> next < patience
    ensures var d := Flashed(c, Millis(time), o).0;
      var from := if Waits(d.state) && d.state != c.state then time else since;
      && d.ram == c.ram && WaitIsReadable(d, later, from)
      && (d.state == c.state ==> CallsLeft(d.state, later, from, next) < CallsLeft(c.state, time, since, patience))
      && (d.state != c.state ==> StatesLeft(d.state) < StatesLeft(c.state))
  {
    if Waits(c.state) {
      ElapsedIsLowerBound(time, since);
    }
  }

  class ConfigStore {
    const device: StoreDevice
    const image: array<Byte>
    var state: State
    var waitMillis: nat

    ghost predicate Valid() {
      image.Length == SIZE && device.cells.Length == SIZE && image != device.cells
    }

    ghost function View(): Cache
      requires Valid()
      reads this, image, device.cells
    {
      Cache(state, waitMillis, image[..], device.cells[..])
    }

    /** Reads the flash, repairs the signature and clears erased words. */
    constructor (device: StoreDevice)
      requires device.cells.Length == SIZE
      ensures Valid() && this.device == device && fresh(image)
      ensures View() == Loaded(old(device.cells[..]))
    {
      this.device := device;
      image := new Byte[SIZE](_ => 0);
      state := Idle;
      waitMillis := 0;
      new;
      device.Read(image);
      var signatureOk := Repair();
      if !signatureOk {
        state := Changed;
      }
      ClearErasedWords();
    }

    /** Without the signature, the image becomes a blank one. */
    method Repair() returns (signatureOk: bool)
      requires Valid()
      modifies image
      ensures signatureOk == Signed(old(image[..]))
      ensures image[..] == Repaired(old(image[..]))
    {
      ghost var flash := image[..];
      signatureOk := RepairSignature();
      if !signatureOk {
        Blank();
      } else {
        SignatureStays(flash);
      }
    }

    static lemma SignatureStays(a: Image)
      requires Signed(a)
      ensures Overwrite(a, 0, SIGNATURE) == a
    {
      forall i | 0 <= i < 4 ensures SIGNATURE[i] == a[i] {
        assert a[..4][i] == a[i];
      }
    }

    method RepairSignature() returns (signatureOk: bool)
      requires Valid()
      modifies image
      ensures image[..] == Overwrite(old(image[..]), 0, SIGNATURE)
      ensures signatureOk == Signed(old(image[..]))
    {
      ghost var flash := image[..];
      signatureOk := true;
      for i := 0 to |SIGNATURE|
        invariant signatureOk == (flash[..i] == SIGNATURE[..i])
        invariant forall k :: 0 <= k < SIZE ==> image[k] == if k < i then SIGNATURE[k] else flash[k]
      {
        assert flash[..i + 1] == flash[..i] + [flash[i]];
        assert SIGNATURE[..i + 1] == SIGNATURE[..i] + [SIGNATURE[i]];
        if image[i] != SIGNATURE[i] {
          image[i] := SIGNATURE[i];
          signatureOk := false;
        }
      }
      assert SIGNATURE[..4] == SIGNATURE;
    }

    method Blank()
      requires Valid()
      modifies image
      ensures image[..] == Overwrite(old(image[..]), SIGNATURE_SIZE, seq(SIZE - SIGNATURE_SIZE, _ => 0))
    {
      forall k | SIGNATURE_SIZE <= k < SIZE {
        image[k] := 0;
      }
    }

    method ClearErasedWords()
      requires Valid()
      modifies image
      ensures image[..] == Normalised(old(image[..]))
    {
      var ats := WordsToInspect();
      ClearErasedWordsAt(ats);
    }

    method ClearErasedWordsAt(ats: seq<nat>)
      requires Valid() && InImage(ats)
      modifies image
      ensures image[..] == ClearWords(old(image[..]), ats)
    {
      ghost var raw := image[..];
      for k := 0 to |ats|
        invariant image[..] == ClearWords(raw, ats[..k])
      {
        ClearErasedWord(ats[k]);
        assert ats[..k + 1][..k] == ats[..k];
      }
      assert ats[..|ats|] == ats;
    }

    static method WordsToInspect() returns (ats: seq<nat>)
      ensures ats == LoadedWords()
    {
      ats := [];
      for store := 0 to LAST
        invariant ats == SetListWords(store)
      {
        var at := FirstByte(store);
        ats := ats + [at];
      }
      ats := ats + [SIGNATURE_SIZE];
    }

    static method FirstByte(store: Store) returns (at: nat)
      ensures at == SetListAt(store)
    {
      at := GetStoreOffset(store);
    }

    method ClearErasedWord(at: nat)
      requires Valid() && at + 4 <= SIZE
      modifies image
      ensures image[..] == ClearWord(old(image[..]), at)
    {
      if image[at] == 0xFF && image[at + 1] == 0xFF && image[at + 2] == 0xFF && image[at + 3] == 0xFF {
        WriteZeros(at);
      }
    }

    method WriteZeros(at: nat)
      requires Valid() && at + 4 <= SIZE
      modifies image
      ensures image[..] == Overwrite(old(image[..]), at, ZERO)
    {
      for k := 0 to 4
        invariant forall i :: 0 <= i < SIZE ==> image[i] == if at <= i < at + k then 0 else old(image[i])
      {
        image[at + k] := 0;
      }
    }

    method ResetSetList(store: Store)
      requires Valid()
      modifies this`state, image
      ensures View() == SetListReset(old(View()), store)
      ensures forall i :: 0 <= i < SIZE ==> image[i] == if SetListAt(store) <= i < SetListAt(store) + 4 then 0 else old(image[i])
    {
      var at := FirstByte(store);
      WriteZeros(at);
      state := Changed;
    }

    /** Replaces the bytes that differ, one by one; if any did, adds the set-list bits. */
    method Update(store: Store, offset: nat, data: seq<Byte>, setList: Word, offsetSetList: nat)
      requires Valid() && Addressable(store, offset, |data|, offsetSetList)
      modifies this`state, image
      ensures View() == Updated(old(View()), store, offset, data, setList, offsetSetList)
    {
      var at, word := Places(store, offset, |data|, offsetSetList);
      UpdateBytes(at, data, word, setList);
      UpdatedIs(old(View()), store, offset, data, setList, offsetSetList, at, word);
    }

    static method Places(store: Store, offset: nat, length: nat, offsetSetList: nat) returns (at: nat, word: nat)
      requires Addressable(store, offset, length, offsetSetList)
      ensures at == SetListAt(store) + offset && word == SetListAt(store) + offsetSetList
      ensures at + length <= SIZE && word + 4 <= SIZE
    {
      var first := FirstByte(store);
      at, word := first + offset, first + offsetSetList;
    }

    method UpdateBytes(at: nat, data: seq<Byte>, word: nat, setList: Word)
      requires Valid() && at + |data| <= SIZE && word + 4 <= SIZE
      modifies this`state, image
      ensures View() == UpdatedAt(old(View()), at, data, word, setList)
    {
      var isChanged := ReplaceBytes(at, data);
      if isChanged {
        SetBits(word, setList);
        state := Changed;
      }
    }

    method ReplaceBytes(at: nat, data: seq<Byte>) returns (isChanged: bool)
      requires Valid() && at + |data| <= SIZE
      modifies image
      ensures isChanged == !Holds(old(image[..]), at, data)
      ensures image[..] == if isChanged then Overwrite(old(image[..]), at, data) else old(image[..])
    {
      ghost var ram := image[..];
      isChanged := false;
      for i := 0 to |data|
        invariant forall k :: 0 <= k < SIZE ==> image[k] == if at <= k < at + i then data[k - at] else ram[k]
        invariant isChanged == (ram[at..at + i] != data[..i])
        invariant !isChanged ==> image[..] == ram
      {
        assert ram[at..at + i + 1] == ram[at..at + i] + [ram[at + i]];
        assert data[..i + 1] == data[..i] + [data[i]];
        if data[i] != image[at + i] {
          isChanged := true;
          image[at + i] := data[i];
        }
      }
      assert data[..|data|] == data;
    }

    method SetBits(word: nat, bits: Word)
      requires Valid() && word + 4 <= SIZE
      modifies image
      ensures image[..] == AddBits(old(image[..]), word, bits)
    {
      for k := 0 to 4
        invariant forall i :: 0 <= i < SIZE ==>
          image[i] == if word <= i < word + k then old(image[i]) | bits[i - word] else old(image[i])
      {
        image[word + k] := image[word + k] | bits[k];
      }
    }

    method Copy(store: Store, default: seq<Byte>, offset: nat, doUpdate: bool) returns (data: seq<Byte>)
      requires Valid() && offset + |default| <= SizeOf(store)
      modifies this`state, image
      ensures (View(), data) == Copied(old(View()), store, default, offset, doUpdate)
      ensures SetListAt(store) + offset + |default| <= SIZE && |data| == |default|
      ensures if IsPresent(old(image[..]), SetListAt(store) + offset, |default|)
              then View() == old(View())
                   && forall i :: 0 <= i < |default| ==> data[i] == old(image[..])[SetListAt(store) + offset + i]
              else data == default
    {
      CopyReadsRecord(View(), store, default, offset, doUpdate, SetListAt(store), SetListAt(store) + offset,
                      Copied(View(), store, default, offset, doUpdate).0, Copied(View(), store, default, offset, doUpdate).1);
      var first := FirstByte(store);
      var record := image[first + offset..first + offset + |default|];
      var isEmpty := IsEmpty(record);
      if !isEmpty {
        return record;
      }
      if doUpdate {
        UpdateBytes(first, default, first, ZERO);
      }
      return default;
    }

    static method IsEmpty(record: seq<Byte>) returns (isEmpty: bool)
      ensures isEmpty == Zeros(record)
    {
      for i := 0 to |record|
        invariant Zeros(record[..i])
      {
        if record[i] != 0 {
          return false;
        }
        assert record[..i + 1] == record[..i] + [record[i]];
      }
      assert record[..|record|] == record;
      return true;
    }

    method Delay()
      requires Valid()
      modifies this`state
      ensures View() == Delayed(old(View()))
    {
      if state != Idle {
        state := Changed;
      }
    }

    method SetEnvUtcOffset(hours: int, minutes: nat) returns (accepted: bool)
      requires Valid()
      modifies this`state, image
      ensures (View(), accepted) == UtcSet(old(View()), hours, minutes)
    {
      var offset := UtcOffset(hours, minutes);
      if offset == None {
        return false;
      }
      var word := WordOf(offset.value);
      ghost var ram := image[..];
      if image[SIGNATURE_SIZE..SIGNATURE_SIZE + 4] != word {
        for k := 0 to 4
          invariant forall i :: 0 <= i < SIZE ==>
            image[i] == if SIGNATURE_SIZE <= i < SIGNATURE_SIZE + k then word[i - SIGNATURE_SIZE] else ram[i]
        {
          image[SIGNATURE_SIZE + k] := word[k];
        }
        assert image[..] == Overwrite(ram, SIGNATURE_SIZE, word);
        state := Changed;
      }
      return true;
    }

    /** The source asserts that the hours fit eight bits. */
    method GetEnvUtcOffset() returns (hours: int, minutes: int)
      requires Valid() && -128 <= UtcHours(NumberAt(image[..], SIGNATURE_SIZE)) <= 127
      ensures (hours, minutes) == UtcParts(NumberAt(image[..], SIGNATURE_SIZE))
    {
      var offset := NumberAt(image[..], SIGNATURE_SIZE);
      hours := UtcHours(offset);
      var rest := if hours > 0 then offset - hours * 3600 else hours * 3600 - offset;
      minutes := rest % 0x1_0000_0000 / 60 % 0x100;
    }

    method Flash(millis: nat) returns (again: bool, ghost o: Outcome)
      requires Valid()
      modifies this`state, this`waitMillis, device, device.cells
      ensures (View(), again) == Flashed(old(View()), millis, o)
      ensures UsesDevice(old(state)) && o.Pending? ==> device.patience < old(device.patience)
    {
      o := Done;
      match state
      case Idle =>
        return false, o;
      case Changed =>
        waitMillis := millis;
        state := ChangedWaiting;
        return true, o;
      case ChangedWaiting =>
        if Elapsed(millis, waitMillis) < QUIET_MILLIS {
          return true, o;
        }
        state := Erasing;
        return true, o;
      case Erasing =>
        var done;
        done, o := device.Erase();
        if done {
          waitMillis := millis;
          state := ErasedWaiting;
        }
        return true, o;
      case ErasedWaiting =>
        if Elapsed(millis, waitMillis) < QUIET_MILLIS {
          return true, o;
        }
        state := Erased;
        return true, o;
      case Erased =>
        state := Writing;
        return true, o;
      case Writing =>
        var done;
        done, o := device.Write(image);
        if done {
          state := Idle;
          return false, o;
        }
        return true, o;
    }

    /** The destructor: flushes until nothing is pending, which ends, and then powering up again would
        give the image the store was closed with. */
    method Close(start: nat, ghost waitingSince: nat)
      requires Valid() && Inv(View()) && WaitIsReadable(View(), start, waitingSince)
      modifies this`state, this`waitMillis, device, device.cells
      ensures state == Idle && image[..] == old(image[..])
      ensures SameUsed(Loaded(device.cells[..]).ram, Normalised(old(image[..])))
    {
      var time: nat, again := start, true;
      ghost var since: nat := waitingSince;
      while again
        invariant again || state == Idle
        invariant Inv(View()) && image[..] == old(image[..]) && WaitIsReadable(View(), time, since)
        decreases again, StatesLeft(state), CallsLeft(state, time, since, device.patience)
      {
        again, time, since := FlushOnce(time, since);
      }
    }

    /** One turn of the destructor's loop; the clock has advanced when the next one begins. */
    method FlushOnce(time: nat, ghost since: nat) returns (again: bool, later: nat, ghost from: nat)
      requires Valid() && Inv(View()) && WaitIsReadable(View(), time, since)
      modifies this`state, this`waitMillis, device, device.cells
      ensures Inv(View()) && image[..] == old(image[..]) && WaitIsReadable(View(), later, from)
      ensures !again ==> state == Idle
      ensures again ==>
        || StatesLeft(state) < old(StatesLeft(state))
        || (StatesLeft(state) == old(StatesLeft(state))
            && CallsLeft(state, later, from, device.patience) < old(CallsLeft(state, time, since, device.patience)))
    {
      var step: nat := *;
      ghost var c, patience := View(), device.patience;
      ghost var o;
      again, o := Flash(Millis(time));
      later := time + 1 + step % (WRAP - QUIET_MILLIS);
      from := if Waits(state) && state != c.state then time else since;
      FlashKeepsInv(c, Millis(time), o);
      if c.state != Idle {
        FlushAdvances(c, time, since, o, patience, later, device.patience);
      }
    }
  }
}
