/** The write-back cache as a value: the RAM image, the flash sectors behind it and the state
    of the flush, with one function for each operation. */
module ConfigCache {
  import opened Bytes
  import opened ConfigLayout
  import opened Text

  /** Four bytes, least significant first. */
  type Word = w: seq<Byte> | |w| == 4 witness [0, 0, 0, 0]

  const SIGNATURE: Word := [0x41, 0x76, 0x56, 0x01]
  const ZERO: Word := [0, 0, 0, 0]
  const ERASED: Byte := 0xFF

  datatype State = Idle | Changed | ChangedWaiting | Erasing | Erased | ErasedWaiting | Writing

  type Image = s: seq<Byte> | |s| == SIZE witness seq(SIZE, _ => 0)

  datatype Cache = Cache(state: State, waitMillis: nat, ram: Image, flash: Image)

  // ---- bytes and words of an image

  function WordAt(ram: Image, at: nat): Word
    requires at + 4 <= SIZE
  {
    ram[at..at + 4]
  }

  predicate AllOnes(w: Word) {
    w[0] == 0xFF && w[1] == 0xFF && w[2] == 0xFF && w[3] == 0xFF
  }

  function Overwrite(ram: Image, at: nat, data: seq<Byte>): (r: Image)
    requires at + |data| <= SIZE
    ensures forall i :: 0 <= i < SIZE ==> r[i] == if at <= i < at + |data| then data[i - at] else ram[i]
  {
    ram[..at] + data + ram[at + |data|..]
  }

  /** Adds the bits of a word to the four bytes at `at`. */
  function AddBits(ram: Image, at: nat, bits: Word): Image
    requires at + 4 <= SIZE
  {
    seq(SIZE, i requires 0 <= i < SIZE => if at <= i < at + 4 then ram[i] | bits[i - at] else ram[i])
  }

  // ---- loading

  function ClearWord(ram: Image, at: nat): Image
    requires at + 4 <= SIZE
  {
    if AllOnes(WordAt(ram, at)) then Overwrite(ram, at, ZERO) else ram
  }

  predicate InImage(ats: seq<nat>) {
    forall k :: 0 <= k < |ats| ==> ats[k] + 4 <= SIZE
  }

  /** Clears each of the given words that reads all ones. */
  function ClearWords(ram: Image, ats: seq<nat>): Image
    requires InImage(ats)
  {
    if ats == [] then ram else ClearWord(ClearWords(ram, ats[..|ats| - 1]), ats[|ats| - 1])
  }

  /** The set-list words of the first n stores. */
  function SetListWords(n: nat): (ats: seq<nat>)
    requires n <= LAST
    ensures |ats| == n && forall s: nat :: s < n ==> ats[s] == SetListAt(s)
  {
    if n == 0 then [] else SetListWords(n - 1) + [SetListAt(n - 1)]
  }

  /** The words the constructor inspects: every set list, then the UTC offset. */
  function LoadedWords(): (ats: seq<nat>)
    ensures |ats| == LAST + 1 && ats[LAST] == SIGNATURE_SIZE
    ensures forall s: Store :: ats[s] == SetListAt(s)
    ensures InImage(ats)
  {
    SetListWords(LAST) + [SIGNATURE_SIZE]
  }

  /** Erased set lists and an erased UTC offset read as zero. */
  function Normalised(ram: Image): Image {
    ClearWords(ram, LoadedWords())
  }

  predicate Signed(ram: Image) {
    ram[..4] == SIGNATURE
  }

  /** The constructor: what RAM holds after reading this flash, and whether it must be written. */
  function Loaded(flash: Image): Cache {
    Cache(if Signed(flash) then Idle else Changed, 0, Normalised(Repaired(flash)), flash)
  }

  /** An image without the signature is replaced by a blank one. */
  function Repaired(flash: Image): Image {
    if Signed(flash) then flash
    else Overwrite(Overwrite(flash, 0, SIGNATURE), SIGNATURE_SIZE, seq(SIZE - SIGNATURE_SIZE, _ => 0))
  }

  // ---- mutators

  /** These bytes of the image already read like this. */
  predicate Holds(ram: Image, at: nat, data: seq<Byte>)
    requires at + |data| <= SIZE
  {
    ram[at..at + |data|] == data
  }

  /** Overwrites bytes and adds bits to a set-list word, if the bytes differ at all. */
  function UpdatedAt(c: Cache, at: nat, data: seq<Byte>, word: nat, setList: Word): Cache
    requires at + |data| <= SIZE && word + 4 <= SIZE
  {
    if Holds(c.ram, at, data) then c
    else
      c.(ram := AddBits(Overwrite(c.ram, at, data), word, setList), state := Changed)
  }

  predicate Zeros(data: seq<Byte>) {
    forall i :: 0 <= i < |data| ==> data[i] == 0
  }

  /** Reads the record at `at`; an all-zero record counts as absent, and then the caller's
      default is stored - at `first`, not at `at`. */
  function CopiedAt(c: Cache, first: nat, at: nat, default: seq<Byte>, doUpdate: bool): (Cache, seq<Byte>)
    requires first <= at && at + |default| <= SIZE && first + 4 <= SIZE
  {
    var record := c.ram[at..at + |default|];
    if !Zeros(record) then (c, record)
    else if doUpdate then (UpdatedAt(c, first, default, first, ZERO), default)
    else (c, default)
  }

  /** The data lies in the store, and the set-list word of the update lies in the image. */
  predicate Addressable(store: Store, offset: nat, length: nat, offsetSetList: nat) {
    offset + length <= SizeOf(store) && SetListAt(store) + offsetSetList + 4 <= SIZE
  }

  /** Where a store's set-list word is: its first four bytes. */
  function SetListAt(store: Store): (at: nat)
    ensures at == Offset(store) && OFFSET_STORES <= at && at + 4 <= USED && at + SizeOf(store) <= USED
  {
    StoresAreDisjoint(store, store);
    Offset(store)
  }

  function Updated(c: Cache, store: Store, offset: nat, data: seq<Byte>, setList: Word, offsetSetList: nat): Cache
    requires Addressable(store, offset, |data|, offsetSetList)
  {
    UpdatedAt(c, SetListAt(store) + offset, data, SetListAt(store) + offsetSetList, setList)
  }

  function SetListReset(c: Cache, store: Store): Cache {
    c.(ram := Overwrite(c.ram, SetListAt(store), ZERO), state := Changed)
  }

  /** The offset of the record is not passed on to the update. */
  function Copied(c: Cache, store: Store, default: seq<Byte>, offset: nat, doUpdate: bool): (Cache, seq<Byte>)
    requires offset + |default| <= SizeOf(store)
  {
    CopiedAt(c, SetListAt(store), SetListAt(store) + offset, default, doUpdate)
  }

  function Delayed(c: Cache): Cache {
    if c.state != Idle then c.(state := Changed) else c
  }

  // ---- UTC offset

  const HALF_HOUR_ZONES: set<(int, nat)> :=
    {(-9, 30), (-3, 30), (3, 30), (4, 30), (5, 30), (5, 45), (6, 30), (8, 45), (9, 30), (10, 30), (12, 45)}

  /** utc_validate: whole hours from -12 to 14 and the listed odd zones. */
  function UtcOffset(hours: int, minutes: nat): Option<int> {
    if !(-12 <= hours <= 14) then None
    else if minutes == 0 then Some(hours * 3600)
    else if (hours, minutes) in HALF_HOUR_ZONES then
      Some(if hours > 0 then hours * 3600 + minutes * 60 else hours * 3600 - minutes * 60)
    else None
  }

  /** The bytes of a 32-bit two's complement number. */
  function WordOf(n: int): Word {
    [ByteOf(n), ByteOf(n / 0x100), ByteOf(n / 0x1_0000), ByteOf(n / 0x100_0000)]
  }

  /** The hours of a stored offset, truncated toward zero. */
  function UtcHours(n: int): int {
    if n >= 0 then n / 3600 else -(-n / 3600)
  }

  /** Its hours and minutes: the rest is taken as 32 bits without sign, and its minutes as eight bits. */
  function UtcParts(n: int): (int, int) {
    var hours := UtcHours(n);
    var rest := if hours > 0 then n - hours * 3600 else hours * 3600 - n;
    (hours, rest % 0x1_0000_0000 / 60 % 0x100)
  }

  /** The number that four bytes make, least significant first, in two's complement. */
  function NumberAt(ram: Image, at: nat): int
    requires at + 4 <= SIZE
  {
    var n := NatOf(ram[at]) + 0x100 * NatOf(ram[at + 1]) + 0x1_0000 * NatOf(ram[at + 2]) + 0x100_0000 * NatOf(ram[at + 3]);
    if n >= 0x8000_0000 then n - 0x1_0000_0000 else n
  }

  function UtcSet(c: Cache, hours: int, minutes: nat): (r: (Cache, bool)) {
    match UtcOffset(hours, minutes)
    case None => (c, false)
    case Some(n) =>
      if WordAt(c.ram, SIGNATURE_SIZE) == WordOf(n) then (c, true)
      else (c.(ram := Overwrite(c.ram, SIGNATURE_SIZE, WordOf(n)), state := Changed), true)
  }

  // ---- the flush

  /** How far one call of the device got: finished, or only the given bytes so far. */
  datatype Outcome = Done | Pending(touched: set<nat>)

  predicate Touches(o: Outcome, i: nat) {
    o.Done? || i in o.touched
  }

  /** Erase sets bytes to all ones. */
  function EraseFlash(flash: Image, o: Outcome): (r: Image) {
    seq(SIZE, i requires 0 <= i < SIZE => if Touches(o, i) then ERASED else flash[i])
  }

  /** Write can only clear bits, and only covers the used part of the image. */
  function WriteFlash(flash: Image, ram: Image, o: Outcome): (r: Image) {
    seq(SIZE, i requires 0 <= i < SIZE => if i < USED && Touches(o, i) then flash[i] & ram[i] else flash[i])
  }

  /** Milliseconds since `since` as 32-bit unsigned arithmetic computes them. */
  function Elapsed(millis: nat, since: nat): nat {
    (millis - since) % 0x1_0000_0000
  }

  const QUIET_MILLIS: nat := 100

  /** One call of Flash; the second result says whether it wants to be called again. */
  function Flashed(c: Cache, millis: nat, o: Outcome): (r: (Cache, bool)) {
    match c.state
    case Idle => (c, false)
    case Changed => (c.(waitMillis := millis, state := ChangedWaiting), true)
    case ChangedWaiting =>
      (if Elapsed(millis, c.waitMillis) < QUIET_MILLIS then c else c.(state := Erasing), true)
    case Erasing =>
      var flash := EraseFlash(c.flash, o);
      (if o.Done? then c.(flash := flash, waitMillis := millis, state := ErasedWaiting) else c.(flash := flash), true)
    case ErasedWaiting =>
      (if Elapsed(millis, c.waitMillis) < QUIET_MILLIS then c else c.(state := Erased), true)
    case Erased => (c.(state := Writing), true)
    case Writing =>
      var flash := WriteFlash(c.flash, c.ram, o);
      (c.(flash := flash, state := if o.Done? then Idle else Writing), !o.Done?)
  }
}
