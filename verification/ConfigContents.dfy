/** What the operations leave in the image byte by byte, and what is read back from it. */
module ConfigContents {
  import opened Bytes
  import opened ConfigLayout
  import opened ConfigCache
  import opened ConfigDurability
  import ConfigIsolation

  // ---- reading a record

  /** Some byte of the record is not zero. */
  ghost predicate IsPresent(ram: Image, at: nat, length: nat)
    requires at + length <= SIZE
  {
    exists j :: at <= j < at + length && ram[j] != 0
  }

  lemma PresentIff(ram: Image, at: nat, record: seq<Byte>)
    requires at + |record| <= SIZE && record == ram[at..at + |record|]
    ensures IsPresent(ram, at, |record|) <==> !Zeros(record)
  {
    if IsPresent(ram, at, |record|) {
      var j :| at <= j < at + |record| && ram[j] != 0;
      assert record[j - at] != 0;
    }
  }

  /** A record with any byte that is not zero is copied out as it stands and nothing changes; in place of one
      that is all zeros the caller's data stays what it was. */
  lemma CopyReadsAt(c: Cache, first: nat, at: nat, default: seq<Byte>, doUpdate: bool)
    requires first <= at && at + |default| <= SIZE && first + 4 <= SIZE
    ensures var (d, data) := CopiedAt(c, first, at, default, doUpdate);
      && |data| == |default|
      && (IsPresent(c.ram, at, |default|) ==> d == c && forall i :: 0 <= i < |default| ==> data[i] == c.ram[at + i])
      && (!IsPresent(c.ram, at, |default|) ==> data == default && (!doUpdate ==> d == c))
  {
    PresentIff(c.ram, at, c.ram[at..at + |default|]);
  }

  /** An absent record with update requested: the default is stored at the first bytes of the store, wherever
      the record is. */
  lemma CopyStoresAtFirst(c: Cache, first: nat, at: nat, default: seq<Byte>, i: nat)
    requires first <= at && at + |default| <= SIZE && first + 4 <= SIZE && i < SIZE
    requires !IsPresent(c.ram, at, |default|)
    ensures CopiedAt(c, first, at, default, true).0.ram[i]
         == if first <= i < first + |default| then default[i - first] else c.ram[i]
  {
    PresentIff(c.ram, at, c.ram[at..at + |default|]);
    if first <= i {
      ConfigIsolation.StoredPlainly(c, first, default, i);
    } else if !Holds(c.ram, first, default) {
      ConfigIsolation.UpdateStores(c, first, default, first, ZERO, i);
    }
  }

  // ---- updating

  /** Every byte after an update that found a difference: the data's where there is data, the old one elsewhere,
      with the bits of the set list added in the four bytes of its word.  One that found none changes nothing. */
  lemma UpdateWritesAt(c: Cache, at: nat, data: seq<Byte>, word: nat, setList: Word, i: nat)
    requires at + |data| <= SIZE && word + 4 <= SIZE && i < SIZE
    ensures var d := UpdatedAt(c, at, data, word, setList);
      if c.ram[at..at + |data|] == data then d == c
      else
        && d.state == Changed && d.flash == c.flash && d.waitMillis == c.waitMillis
        && var byte := if at <= i < at + |data| then data[i - at] else c.ram[i];
           d.ram[i] == if word <= i < word + 4 then byte | setList[i - word] else byte
  {
    if !Holds(c.ram, at, data) {
      ConfigIsolation.UpdateStores(c, at, data, word, setList, i);
    }
  }

  /** Reading back what was just updated gives the data exactly when the set list adds no bit to it or there was
      nothing to update, and the data is not all zeros or is what the reader has for a default anyway. */
  lemma UpdateThenCopyAtIff(c: Cache, first: nat, at: nat, data: seq<Byte>, word: nat, setList: Word, default: seq<Byte>, doUpdate: bool)
    requires first <= at && at + |data| <= SIZE && word + 4 <= SIZE && first + 4 <= SIZE && |default| == |data|
    ensures CopiedAt(UpdatedAt(c, at, data, word, setList), first, at, default, doUpdate).1 == data
       <==> (Holds(c.ram, at, data) || ConfigIsolation.AddsNothing(at, data, word, setList)) && (!Zeros(data) || default == data)
  {
    var d := UpdatedAt(c, at, data, word, setList);
    ConfigIsolation.RepeatedUpdate(c, at, data, word, setList);
    if Zeros(d.ram[at..at + |data|]) && !Holds(c.ram, at, data) {
      ZeroRecordIsZeroData(c, at, data, word, setList);
    }
    CopiedHeld(d, first, at, data, default, doUpdate);
  }

  lemma CopiedHeld(d: Cache, first: nat, at: nat, data: seq<Byte>, default: seq<Byte>, doUpdate: bool)
    requires first <= at && at + |data| <= SIZE && first + 4 <= SIZE && |default| == |data|
    requires Zeros(d.ram[at..at + |data|]) ==> Holds(d.ram, at, data)
    ensures CopiedAt(d, first, at, default, doUpdate).1 == data <==> Holds(d.ram, at, data) && (!Zeros(data) || default == data)
  {
  }

  lemma ZeroRecordIsZeroData(c: Cache, at: nat, data: seq<Byte>, word: nat, setList: Word)
    requires at + |data| <= SIZE && word + 4 <= SIZE && !Holds(c.ram, at, data)
    requires Zeros(UpdatedAt(c, at, data, word, setList).ram[at..at + |data|])
    ensures Zeros(data) && Holds(UpdatedAt(c, at, data, word, setList).ram, at, data)
  {
    var ram := UpdatedAt(c, at, data, word, setList).ram;
    forall i | 0 <= i < |data| ensures data[i] == 0 == ram[at + i] {
      ConfigIsolation.UpdateStores(c, at, data, word, setList, at + i);
      assert ram[at..at + |data|][i] == 0;
      if word <= at + i < word + 4 {
        NoBits(data[i], setList[at + i - word]);
      }
    }
    ConfigIsolation.HoldsPointwise(ram, at, data);
  }

  lemma NoBits(a: Byte, b: Byte)
    requires a | b == 0
    ensures a == 0
  {
  }

  /** The case of a set list kept apart from the data: data that is not all zeros comes back. */
  lemma UpdateThenCopyAt(c: Cache, first: nat, at: nat, data: seq<Byte>, word: nat, setList: Word, default: seq<Byte>, doUpdate: bool)
    requires first <= at && at + |data| <= SIZE && word + 4 <= SIZE && first + 4 <= SIZE && |default| == |data|
    requires word + 4 <= at || at + |data| <= word
    requires exists i :: 0 <= i < |data| && data[i] != 0
    ensures var d := UpdatedAt(c, at, data, word, setList); CopiedAt(d, first, at, default, doUpdate) == (d, data)
  {
    var d := UpdatedAt(c, at, data, word, setList);
    ConfigIsolation.RepeatedUpdate(c, at, data, word, setList);
    assert Holds(d.ram, at, data);
  }

  // ---- by store and offset

  lemma PlacesInStore(c: Cache, store: Store, offset: nat, length: nat, first: nat, at: nat)
    requires offset + length <= SizeOf(store) && first == Offset(store) && at == first + offset
    ensures first == SetListAt(store) && first <= at && at + length <= SIZE && first + 4 <= SIZE
  {
    assert SetListAt(store) == Offset(store);
  }

  lemma UpdatedIs(c: Cache, store: Store, offset: nat, data: seq<Byte>, setList: Word, offsetSetList: nat,
                  at: nat, word: nat)
    requires Addressable(store, offset, |data|, offsetSetList)
    requires at == SetListAt(store) + offset && word == SetListAt(store) + offsetSetList
    ensures at + |data| <= SIZE && word + 4 <= SIZE
    ensures Updated(c, store, offset, data, setList, offsetSetList) == UpdatedAt(c, at, data, word, setList)
  {
  }

  lemma CopiedIs(c: Cache, store: Store, default: seq<Byte>, offset: nat, doUpdate: bool, first: nat, at: nat)
    requires offset + |default| <= SizeOf(store) && first == SetListAt(store) && at == first + offset
    ensures at + |default| <= SIZE && first + 4 <= SIZE
    ensures Copied(c, store, default, offset, doUpdate) == CopiedAt(c, first, at, default, doUpdate)
  {
  }

  /** Copy: a record with any byte that is not zero is copied out as it stands and nothing changes; in place of
      one that is all zeros the caller's data stays what it was. */
  lemma CopyReadsRecord(c: Cache, store: Store, default: seq<Byte>, offset: nat, doUpdate: bool,
                        first: nat, at: nat, d: Cache, data: seq<Byte>)
    requires offset + |default| <= SizeOf(store) && first == Offset(store) && at == first + offset
    requires (d, data) == Copied(c, store, default, offset, doUpdate)
    ensures at + |default| <= SIZE && |data| == |default|
    ensures if IsPresent(c.ram, at, |default|) then d == c && forall i :: 0 <= i < |default| ==> data[i] == c.ram[at + i]
            else data == default && (!doUpdate ==> d == c)
  {
    PlacesInStore(c, store, offset, |default|, first, at);
    CopiedIs(c, store, default, offset, doUpdate, first, at);
    CopyReadsAt(c, first, at, default, doUpdate);
  }

  /** Update: every byte of the image afterwards. */
  lemma UpdateWrites(c: Cache, store: Store, offset: nat, data: seq<Byte>, setList: Word, offsetSetList: nat,
                     first: nat, at: nat, word: nat, d: Cache, i: nat)
    requires Addressable(store, offset, |data|, offsetSetList) && i < SIZE
    requires first == Offset(store) && at == first + offset && word == first + offsetSetList
    requires d == Updated(c, store, offset, data, setList, offsetSetList)
    ensures at + |data| <= SIZE && word + 4 <= SIZE
    ensures if c.ram[at..at + |data|] == data then d == c
      else
        && d.state == Changed && d.flash == c.flash && d.waitMillis == c.waitMillis
        && var byte := if at <= i < at + |data| then data[i - at] else c.ram[i];
           d.ram[i] == if word <= i < word + 4 then byte | setList[i - word] else byte
  {
    PlacesInStore(c, store, offset, |data|, first, at);
    UpdatedIs(c, store, offset, data, setList, offsetSetList, at, word);
    UpdateWritesAt(c, at, data, word, setList, i);
  }

  /** Update, then Copy at the same offset: exactly when the data comes back. */
  lemma UpdateThenCopyIff(c: Cache, store: Store, offset: nat, data: seq<Byte>, setList: Word, offsetSetList: nat,
                          default: seq<Byte>, doUpdate: bool, first: nat, at: nat, word: nat, d: Cache, e: Cache, back: seq<Byte>)
    requires Addressable(store, offset, |data|, offsetSetList) && |default| == |data|
    requires first == Offset(store) && at == first + offset && word == first + offsetSetList
    requires d == Updated(c, store, offset, data, setList, offsetSetList)
    requires (e, back) == Copied(d, store, default, offset, doUpdate)
    ensures at + |data| <= SIZE
    ensures back == data
       <==> (Holds(c.ram, at, data) || ConfigIsolation.AddsNothing(at, data, word, setList)) && (!Zeros(data) || default == data)
  {
    PlacesInStore(c, store, offset, |data|, first, at);
    UpdatedIs(c, store, offset, data, setList, offsetSetList, at, word);
    CopiedIs(d, store, default, offset, doUpdate, first, at);
    UpdateThenCopyAtIff(c, first, at, data, word, setList, default, doUpdate);
  }

  /** With the set list apart from data that is not all zeros, it always does. */
  lemma UpdateThenCopy(c: Cache, store: Store, offset: nat, data: seq<Byte>, setList: Word, offsetSetList: nat,
                       default: seq<Byte>, doUpdate: bool, first: nat, d: Cache)
    requires Addressable(store, offset, |data|, offsetSetList) && |default| == |data| && first == Offset(store)
    requires offsetSetList + 4 <= offset || offset + |data| <= offsetSetList
    requires exists i :: 0 <= i < |data| && data[i] != 0
    requires d == Updated(c, store, offset, data, setList, offsetSetList)
    ensures Copied(d, store, default, offset, doUpdate) == (d, data)
  {
    var at, word := first + offset, first + offsetSetList;
    PlacesInStore(c, store, offset, |data|, first, at);
    UpdatedIs(c, store, offset, data, setList, offsetSetList, at, word);
    CopiedIs(d, store, default, offset, doUpdate, first, at);
    UpdateThenCopyAt(c, first, at, data, word, setList, default, doUpdate);
  }

  // ---- set lists

  lemma ResetClearsSetList(c: Cache, store: Store)
    ensures var at := Offset(store); var d := SetListReset(c, store);
      && at + 4 <= SIZE && d.ram[at] == d.ram[at + 1] == d.ram[at + 2] == d.ram[at + 3] == 0
      && (forall i :: 0 <= i < SIZE && !(at <= i < at + 4) ==> d.ram[i] == c.ram[i])
      && d.state == Changed && d.flash == c.flash && d.waitMillis == c.waitMillis
  {
    assert SetListAt(store) == Offset(store);
  }

  // ---- loading

  /** Flash without the signature loads as the signature with zeros behind the first sixteen bytes, to be written. */
  lemma UnsignedLoadsBlank(flash: Image)
    requires flash[..4] != [0x41, 0x76, 0x56, 0x01]
    ensures var c := Loaded(flash);
      && c.state == Changed && c.flash == flash && c.ram[..4] == [0x41, 0x76, 0x56, 0x01]
      && (forall i :: 4 <= i < 16 ==> c.ram[i] == flash[i])
      && forall i :: 16 <= i < SIZE ==> c.ram[i] == 0
  {
    var raw := Repaired(flash);
    assert raw[..4] == SIGNATURE;
    BlankHasNothingErased(raw);
    NothingErased(raw);
  }

  lemma BlankHasNothingErased(a: Image)
    requires forall i :: 16 <= i < SIZE ==> a[i] == 0
    ensures SetListsWritten(a) && !AllOnes(WordAt(a, SIGNATURE_SIZE))
  {
    forall s: Store ensures !AllOnes(WordAt(a, SetListAt(s))) {
      ZeroNotErased(a, SetListAt(s));
    }
    ZeroNotErased(a, SIGNATURE_SIZE);
  }

  lemma ZeroNotErased(a: Image, at: nat)
    requires at + 4 <= SIZE && a[at] == 0
    ensures !AllOnes(WordAt(a, at))
  {
    assert WordAt(a, at)[0] == a[at];
  }

  /** The first four bytes of each store, and of the environment, load as zeros where all four read 0xFF in a
      signed flash, and as they are where not. */
  lemma LoadedWordIs(flash: Image, k: nat, at: nat, i: nat)
    requires flash[..4] == [0x41, 0x76, 0x56, 0x01]
    requires k <= LAST && at == (if k == LAST then 16 else SetListAt(k)) && at <= i < at + 4
    ensures i < SIZE && Loaded(flash).ram[i] == if ErasedAt(flash, at) then 0 else flash[i]
  {
    var ats := LoadedWords();
    assert ats[k] == at by {
      if k < LAST {
        var s: Store := k;
        assert ats[s] == SetListAt(s);
      }
    }
    LoadedWordsApart();
    WordsCleared(flash, ats, k);
    WordBytes(flash, Normalised(flash), at, i);
  }

  /** Nothing else of it is touched, and the store rests. */
  lemma LoadedElsewhere(flash: Image, i: nat)
    requires flash[..4] == [0x41, 0x76, 0x56, 0x01] && i < SIZE
    requires !(16 <= i < 20) && forall s: Store :: !(SetListAt(s) <= i < SetListAt(s) + 4)
    ensures Loaded(flash) == Cache(Idle, 0, Loaded(flash).ram, flash) && Loaded(flash).ram[i] == flash[i]
  {
    var ats := LoadedWords();
    forall k | 0 <= k < |ats| ensures !(ats[k] <= i < ats[k] + 4) {
      if k < LAST {
        assert ats[k] == SetListAt(k);
      }
    }
    OnlyWordsCleared(flash, ats, i);
  }

  /** These four bytes of the image all read 0xFF. */
  predicate ErasedAt(a: Image, at: nat)
    requires at + 4 <= SIZE
  {
    a[at] == 0xFF && a[at + 1] == 0xFF && a[at + 2] == 0xFF && a[at + 3] == 0xFF
  }

  lemma WordBytes(a: Image, b: Image, at: nat, i: nat)
    requires at + 4 <= SIZE && at <= i < at + 4
    requires WordAt(b, at) == if AllOnes(WordAt(a, at)) then ZERO else WordAt(a, at)
    ensures b[i] == if ErasedAt(a, at) then 0 else a[i]
  {
    var w, v := WordAt(a, at), WordAt(b, at);
    assert w[0] == a[at] && w[1] == a[at + 1] && w[2] == a[at + 2] && w[3] == a[at + 3];
    assert v[i - at] == b[i] && w[i - at] == a[i];
  }

  // ---- the UTC offset

  lemma FourBytes(n: int, b0: int, b1: int, b2: int, b3: int)
    requires -0x8000_0000 <= n < 0x8000_0000
    requires b0 == n % 0x100 && b1 == n / 0x100 % 0x100 && b2 == n / 0x1_0000 % 0x100 && b3 == n / 0x100_0000 % 0x100
    ensures var m := b0 + 0x100 * b1 + 0x1_0000 * b2 + 0x100_0000 * b3; n == if m >= 0x8000_0000 then m - 0x1_0000_0000 else m
  {
    Digits(n, n / 0x100, n / 0x1_0000, n / 0x100_0000);
  }

  lemma Digits(n: int, h1: int, h2: int, h3: int)
    requires h1 == n / 0x100 && h2 == n / 0x1_0000 && h3 == n / 0x100_0000
    ensures h2 == h1 / 0x100 && h3 == h2 / 0x100
  {
  }

  lemma WordReadsBack(ram: Image, at: nat, n: int)
    requires at + 4 <= SIZE && -0x8000_0000 <= n < 0x8000_0000 && ram[at..at + 4] == WordOf(n)
    ensures NumberAt(ram, at) == n
  {
    var w := WordOf(n);
    assert ram[at] == w[0] && ram[at + 1] == w[1] && ram[at + 2] == w[2] && ram[at + 3] == w[3];
    NatOfByteOf(n);
    NatOfByteOf(n / 0x100);
    NatOfByteOf(n / 0x1_0000);
    NatOfByteOf(n / 0x100_0000);
    FourBytes(n, NatOf(w[0]), NatOf(w[1]), NatOf(w[2]), NatOf(w[3]));
  }

  /** Which offsets are accepted, and how many seconds each means. */
  lemma UtcTable(hours: int, minutes: nat)
    ensures UtcOffset(hours, minutes).Some?
       <==> -12 <= hours <= 14
            && (minutes == 0 || (hours in {-9, -3, 3, 4, 5, 6, 9, 10} && minutes == 30) || (hours in {5, 8, 12} && minutes == 45))
    ensures UtcOffset(hours, minutes).Some? ==>
      UtcOffset(hours, minutes).value == hours * 3600 + if hours > 0 then minutes * 60 else -(minutes * 60)
  {
  }

  /** After an offset was accepted, the four bytes at 16 read back as its seconds, from which the hours and minutes come
      out again, and every other byte is as before; one that is not accepted changes nothing. */
  lemma UtcIsStored(c: Cache, hours: int, minutes: nat)
    ensures var (d, accepted) := UtcSet(c, hours, minutes);
      && accepted == UtcOffset(hours, minutes).Some?
      && (accepted ==>
           && NumberAt(d.ram, 16) == hours * 3600 + (if hours > 0 then minutes * 60 else -(minutes * 60))
           && UtcParts(NumberAt(d.ram, 16)) == (hours, minutes)
           && forall i :: 0 <= i < SIZE && !(16 <= i < 20) ==> d.ram[i] == c.ram[i])
      && (!accepted ==> d == c)
  {
    UtcTable(hours, minutes);
    match UtcOffset(hours, minutes)
    case None =>
    case Some(n) =>
      var d := UtcSet(c, hours, minutes).0;
      NumberStored(c.ram, d.ram, n);
      ConfigIsolation.UtcRoundTrip(hours, minutes);
  }

  lemma NumberStored(a: Image, b: Image, n: int)
    requires -0x8000_0000 <= n < 0x8000_0000
    requires b == if WordAt(a, SIGNATURE_SIZE) == WordOf(n) then a else Overwrite(a, SIGNATURE_SIZE, WordOf(n))
    ensures NumberAt(b, SIGNATURE_SIZE) == n
  {
    EnvWritten(a, WordOf(n));
    WordReadsBack(b, SIGNATURE_SIZE, n);
  }

  /** The seconds that hours and minutes stand for. */
  function Seconds(hours: int, minutes: int): int {
    hours * 3600 + if hours > 0 then minutes * 60 else -(minutes * 60)
  }

  /** Of any number of seconds in the image, the hours and minutes read stand for that number exactly when it is a
      whole number of minutes and does not lie between zero and one hour. */
  lemma UtcPartsTellIff(n: int)
    requires -128 <= UtcHours(n) <= 127
    ensures Seconds(UtcParts(n).0, UtcParts(n).1) == n <==> n % 60 == 0 && !(0 < n < 3600)
  {
    if n <= 0 {
      NegativeParts(n, -n, UtcHours(n));
    } else if n < 3600 {
      assert UtcHours(n) == 0;
    } else {
      PositiveParts(n, UtcHours(n));
    }
  }

  lemma NegativeParts(n: int, m: nat, hours: int)
    requires n == 0 - m && hours == UtcHours(n)
    ensures Seconds(UtcParts(n).0, UtcParts(n).1) == n <==> n % 60 == 0
  {
    WholeMinutes(n, m);
    NonNegativeRest(m, -hours);
    SecondsOfParts(n, hours, hours * 3600 - n);
  }

  lemma WholeMinutes(n: int, m: nat)
    requires n == 0 - m
    ensures n % 60 == 0 <==> m % 60 == 0
  {
  }

  lemma SecondsOfParts(n: int, hours: int, rest: int)
    requires n <= 0 && hours == UtcHours(n) && rest == hours * 3600 - n
    requires 0 <= rest < 3600 && rest % 0x1_0000_0000 / 60 % 0x100 == rest / 60
    ensures Seconds(UtcParts(n).0, UtcParts(n).1) == n <==> rest / 60 * 60 == rest
  {
  }

  lemma PositiveParts(n: nat, hours: nat)
    requires n >= 3600 && hours == n / 3600 == UtcHours(n)
    ensures Seconds(UtcParts(n).0, UtcParts(n).1) == n <==> n % 60 == 0
  {
    NonNegativeRest(n, hours);
  }

  lemma NonNegativeRest(n: nat, hours: nat)
    requires hours == n / 3600
    ensures var rest := n - hours * 3600;
      0 <= rest < 3600 && rest % 0x1_0000_0000 / 60 % 0x100 == rest / 60 && (rest / 60 * 60 == rest <==> n % 60 == 0)
  {
    assert n == hours * 3600 + n % 3600;
    assert n % 60 == n % 3600 % 60;
  }
}
