/** What one mutator call does to the rest of the image, and what calling it again does. */
module ConfigIsolation {
  import opened Bytes
  import opened ConfigLayout
  import opened ConfigCache

  ghost predicate SameRange(a: Image, b: Image, from: nat, length: nat) {
    from + length <= SIZE && forall i :: from <= i < from + length ==> a[i] == b[i]
  }

  /** An update changes nothing outside its data and its set-list word. */
  lemma UpdateFrame(c: Cache, at: nat, data: seq<Byte>, word: nat, setList: Word, from: nat, length: nat)
    requires at + |data| <= SIZE && word + 4 <= SIZE && from + length <= SIZE
    requires from + length <= at || at + |data| <= from
    requires from + length <= word || word + 4 <= from
    ensures SameRange(UpdatedAt(c, at, data, word, setList).ram, c.ram, from, length)
  {
  }

  /** An update leaves alone what is in front of its store or behind it. */
  lemma UpdateOutside(c: Cache, store: Store, offset: nat, data: seq<Byte>, setList: Word, offsetSetList: nat,
                      from: nat, length: nat)
    requires offset + |data| <= SizeOf(store) && offsetSetList + 4 <= SizeOf(store) && from + length <= SIZE
    requires from + length <= SetListAt(store) || SetListAt(store) + SizeOf(store) <= from
    ensures Addressable(store, offset, |data|, offsetSetList)
    ensures SameRange(Updated(c, store, offset, data, setList, offsetSetList).ram, c.ram, from, length)
  {
    UpdateFrame(c, SetListAt(store) + offset, data, SetListAt(store) + offsetSetList, setList, from, length);
  }

  /** With the set-list word in its own store, an update leaves every other store, the
      signature and the environment as they are. */
  lemma UpdateStaysInStore(c: Cache, store: Store, offset: nat, data: seq<Byte>, setList: Word, offsetSetList: nat, other: Store)
    requires offset + |data| <= SizeOf(store) && offsetSetList + 4 <= SizeOf(store)
    ensures Addressable(store, offset, |data|, offsetSetList)
    ensures var d := Updated(c, store, offset, data, setList, offsetSetList);
      && SameRange(d.ram, c.ram, 0, OFFSET_STORES)
      && (other != store ==> SameRange(d.ram, c.ram, SetListAt(other), SizeOf(other)))
  {
    UpdateOutside(c, store, offset, data, setList, offsetSetList, 0, OFFSET_STORES);
    if other != store {
      StoresAreDisjoint(store, other);
      UpdateOutside(c, store, offset, data, setList, offsetSetList, SetListAt(other), SizeOf(other));
    }
  }

  /** Inside the motors store, an update whose data and set-list word lie in one record of one
      motor leaves every other record of every motor as it is. */
  lemma UpdateStaysInRecord(c: Cache, m: nat, s: Section, n: nat, t: Section,
                            within: nat, data: seq<Byte>, setList: Word, withinSetList: nat)
    requires m < MOTOR_RECORDS && n < MOTOR_RECORDS && (m, s) != (n, t)
    requires within + |data| <= SectionLength(s) && withinSetList + 4 <= SectionLength(s)
    ensures var offset, word := RecordOffset(m, s) + within, RecordOffset(m, s) + withinSetList;
      && Addressable(MOTORS, offset, |data|, word)
      && SameRange(Updated(c, MOTORS, offset, data, setList, word).ram, c.ram,
                   SetListAt(MOTORS) + RecordOffset(n, t), SectionLength(t))
  {
    RecordsAreDisjoint(m, s, n, t);
    RecordsAreDisjoint(n, t, m, s);
    UpdateStaysInPart(c, MOTORS, RecordOffset(m, s), SectionLength(s), within, data, withinSetList, setList,
                      RecordOffset(n, t), SectionLength(t));
  }

  /** An update whose data and set-list word lie in one part of a store leaves alone what is apart from that. */
  lemma UpdateStaysInPart(c: Cache, store: Store, part: nat, partLength: nat, within: nat, data: seq<Byte>,
                          withinSetList: nat, setList: Word, from: nat, length: nat)
    requires part + partLength <= SizeOf(store) && from + length <= SizeOf(store)
    requires from + length <= part || part + partLength <= from
    requires within + |data| <= partLength && withinSetList + 4 <= partLength
    ensures Addressable(store, part + within, |data|, part + withinSetList)
    ensures SameRange(Updated(c, store, part + within, data, setList, part + withinSetList).ram, c.ram,
                      SetListAt(store) + from, length)
  {
    StoresAreDisjoint(store, store);
    UpdateFrame(c, SetListAt(store) + part + within, data, SetListAt(store) + part + withinSetList, setList,
                SetListAt(store) + from, length);
  }

  /** The byte an update puts at i: the data's where there is data, with the bits of the
      set-list word added where that lies. */
  function NewByte(c: Cache, at: nat, data: seq<Byte>, word: nat, setList: Word, i: nat): Byte
    requires i < SIZE
  {
    var byte := if at <= i < at + |data| then data[i - at] else c.ram[i];
    if word <= i < word + 4 then byte | setList[i - word] else byte
  }

  lemma UpdateStores(c: Cache, at: nat, data: seq<Byte>, word: nat, setList: Word, i: nat)
    requires at + |data| <= SIZE && word + 4 <= SIZE && i < SIZE
    requires !Holds(c.ram, at, data)
    ensures UpdatedAt(c, at, data, word, setList).ram[i] == NewByte(c, at, data, word, setList, i)
  {
  }

  /** The bits the set list adds to the data are there already. */
  ghost predicate AddsNothing(at: nat, data: seq<Byte>, word: nat, setList: Word) {
    forall k :: 0 <= k < 4 && at <= word + k < at + |data| ==> data[word + k - at] | setList[k] == data[word + k - at]
  }

  /** Repeating an update never changes RAM again.  It leaves the flush alone as well exactly
      when there was nothing to do the first time, or the set list adds no bit to the data;
      otherwise every repetition marks the image changed. */
  lemma RepeatedUpdate(c: Cache, at: nat, data: seq<Byte>, word: nat, setList: Word)
    requires at + |data| <= SIZE && word + 4 <= SIZE
    ensures var once := UpdatedAt(c, at, data, word, setList); var twice := UpdatedAt(once, at, data, word, setList);
      && twice.ram == once.ram
      && (Holds(once.ram, at, data) <==> Holds(c.ram, at, data) || AddsNothing(at, data, word, setList))
      && (Holds(once.ram, at, data) ==> twice == once)
  {
    var once := UpdatedAt(c, at, data, word, setList);
    if !Holds(c.ram, at, data) {
      HeldAfterwardsIff(c, at, data, word, setList);
      if !Holds(once.ram, at, data) {
        OrTwice(once, c, at, data, word, setList);
      }
    }
  }

  lemma HeldAfterwardsIff(c: Cache, at: nat, data: seq<Byte>, word: nat, setList: Word)
    requires at + |data| <= SIZE && word + 4 <= SIZE && !Holds(c.ram, at, data)
    ensures Holds(UpdatedAt(c, at, data, word, setList).ram, at, data) <==> AddsNothing(at, data, word, setList)
  {
    var ram := UpdatedAt(c, at, data, word, setList).ram;
    HoldsPointwise(ram, at, data);
    forall i | 0 <= i < |data| ensures ram[at + i] == Added(at, data, word, setList, i) {
      UpdateStores(c, at, data, word, setList, at + i);
    }
    AddsNothingIff(at, data, word, setList);
  }

  /** A byte of the data with the bits that the set list adds to it. */
  function Added(at: nat, data: seq<Byte>, word: nat, setList: Word, i: nat): Byte
    requires i < |data|
  {
    if word <= at + i < word + 4 then data[i] | setList[at + i - word] else data[i]
  }

  lemma AddsNothingIff(at: nat, data: seq<Byte>, word: nat, setList: Word)
    ensures AddsNothing(at, data, word, setList)
       <==> forall i :: 0 <= i < |data| ==> Added(at, data, word, setList, i) == data[i]
  {
  }

  lemma HoldsPointwise(ram: Image, at: nat, data: seq<Byte>)
    requires at + |data| <= SIZE
    ensures Holds(ram, at, data) <==> forall i :: 0 <= i < |data| ==> ram[at + i] == data[i]
  {
  }

  lemma OrTwice(once: Cache, c: Cache, at: nat, data: seq<Byte>, word: nat, setList: Word)
    requires at + |data| <= SIZE && word + 4 <= SIZE
    requires !Holds(c.ram, at, data) && once == UpdatedAt(c, at, data, word, setList)
    requires !Holds(once.ram, at, data)
    ensures UpdatedAt(once, at, data, word, setList).ram == once.ram
  {
    var twice := UpdatedAt(once, at, data, word, setList);
    forall i | 0 <= i < SIZE ensures twice.ram[i] == once.ram[i] {
      UpdateStores(c, at, data, word, setList, i);
      UpdateStores(once, at, data, word, setList, i);
      if word <= i < word + 4 {
        OrIdempotent(c.ram[i], setList[i - word]);
      }
    }
  }

  lemma OrIdempotent(a: Byte, b: Byte)
    ensures (a | b) | b == a | b
  {
  }

  /** Copy with an absent record and update requested: afterwards the record holds the default
      exactly when the record is the first of its store, or the default is all zeros. */
  lemma CopyStoresDefaultIff(c: Cache, first: nat, at: nat, default: seq<Byte>)
    requires first <= at && at + |default| <= SIZE && first + 4 <= SIZE
    requires Zeros(c.ram[at..at + |default|])
    ensures var d := CopiedAt(c, first, at, default, true);
      && d.1 == default
      && (Holds(d.0.ram, at, default) <==> at == first || Zeros(default))
  {
    var after := CopiedAt(c, first, at, default, true).0.ram[at..at + |default|];
    forall j | 0 <= j < |default| ensures after[j] == Shifted(default, at - first, j) {
      StoredPlainly(c, first, default, at + j);
      assert c.ram[at..at + |default|][j] == 0;
    }
    ShiftedSameIff(after, default, at - first);
  }

  /** What is read at a distance from where the data was stored is the data exactly if there is no distance,
      or the data is all zeros. */
  lemma ShiftedSameIff(after: seq<Byte>, data: seq<Byte>, distance: nat)
    requires |after| == |data| && forall j :: 0 <= j < |data| ==> after[j] == Shifted(data, distance, j)
    ensures after == data <==> distance == 0 || Zeros(data)
  {
    if after == data && distance > 0 {
      forall i | 0 <= i < |data| ensures data[i] == 0 {
        ShiftedIsZero(data, distance, i);
      }
    }
  }

  lemma StoredPlainly(c: Cache, at: nat, data: seq<Byte>, i: nat)
    requires at + |data| <= SIZE && at + 4 <= SIZE && at <= i < SIZE
    ensures UpdatedAt(c, at, data, at, ZERO).ram[i] == if i < at + |data| then data[i - at] else c.ram[i]
  {
    if Holds(c.ram, at, data) {
      HoldsPointwise(c.ram, at, data);
      if i < at + |data| {
        assert c.ram[at + (i - at)] == data[i - at];
      }
    } else {
      UpdateStores(c, at, data, at, ZERO, i);
      if i < at + 4 {
        assert ZERO[i - at] == 0;
      }
    }
  }

  function Shifted(data: seq<Byte>, distance: nat, j: nat): Byte {
    if j + distance < |data| then data[j + distance] else 0
  }

  /** Data that equals itself shifted by some distance, with zeros shifted in, is all zeros. */
  lemma {:induction false} ShiftedIsZero(data: seq<Byte>, distance: nat, i: nat)
    requires distance > 0 && i < |data|
    requires forall j :: 0 <= j < |data| ==> data[j] == Shifted(data, distance, j)
    ensures data[i] == 0
    decreases |data| - i
  {
    assert data[i] == Shifted(data, distance, i);
    if i + distance < |data| {
      ShiftedIsZero(data, distance, i + distance);
    }
  }

  /** Reading back an accepted UTC offset gives the hours and minutes it was set from. */
  lemma UtcRoundTrip(hours: int, minutes: nat)
    requires UtcOffset(hours, minutes).Some?
    ensures UtcParts(UtcOffset(hours, minutes).value) == (hours, minutes)
  {
    assert minutes < 60;
    if hours >= 0 {
      Divided(hours, minutes);
    } else {
      Divided(-hours, minutes);
    }
  }

  lemma Divided(hours: nat, minutes: nat)
    requires minutes < 60
    ensures (hours * 3600 + minutes * 60) / 3600 == hours && minutes * 60 / 60 == minutes
  {
  }
}
