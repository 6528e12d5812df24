/** The textual form of DMX slot information: "TT:CCCC,TT:CCCC,...", and the mask of the slots it sets. */
module SlotInfo {
  import opened Text
  import opened Words

  type Byte = x: int | 0 <= x < 0x100

  /** Where to read on, if anywhere. */
  datatype Position = End | At(index: nat)

  datatype Info = Info(kind: Byte, category: Word)

  const PRIMARY: Byte := 0
  const UNDEFINED: Word := 0xFFFF

  predicate IsHexDigit(c: char) {
    '0' <= c <= '9' || 'A' <= c <= 'F' || 'a' <= c <= 'f'
  }

  function Nibble(c: char): (n: nat)
    requires IsHexDigit(c)
    ensures n < 16
  {
    if c <= '9' then c as int - '0' as int
    else if c <= 'F' then c as int - 'A' as int + 10
    else c as int - 'a' as int + 10
  }

  function HexChar(n: nat): (c: char)
    requires n < 16
    ensures IsHexDigit(c) && Nibble(c) == n
  {
    if n < 10 then ('0' as int + n) as char else ('A' as int + (n - 10)) as char
  }

  // ---- parsing

  /** A number and the position behind it. */
  datatype Scanned = Refused | Number(value: nat, next: nat)

  /** The type: at most two digits, fewer if a colon comes first. */
  function TypeAt(mem: seq<char>, p: nat, i: nat, value: nat): Scanned
    requires i <= 2
    decreases 2 - i, p
  {
    var c := CharAt(mem, p);
    if i == 2 || c == ':' then Number(value, p)
    else if !IsHexDigit(c) then Refused
    else TypeAt(mem, p + 1, i + 1, 16 * value + Nibble(c))
  }

  /** The category: four digits. */
  function CategoryAt(mem: seq<char>, p: nat, i: nat, value: nat): Scanned
    requires i <= 4
    decreases 4 - i, p
  {
    var c := CharAt(mem, p);
    if i == 4 then Number(value, p)
    else if c == ',' || c == '\0' || !IsHexDigit(c) then Refused
    else CategoryAt(mem, p + 1, i + 1, 16 * value + Nibble(c))
  }

  lemma {:induction false} TypeFits(mem: seq<char>, p: nat, i: nat, value: nat)
    requires i <= 2 && (i == 0 ==> value == 0) && (i == 1 ==> value < 16) && value < 0x100
    ensures TypeAt(mem, p, i, value).Number? ==> TypeAt(mem, p, i, value).value < 0x100
    decreases 2 - i
  {
    if i < 2 && IsHexDigit(CharAt(mem, p)) {
      TypeFits(mem, p + 1, i + 1, 16 * value + Nibble(CharAt(mem, p)));
    }
  }

  function Limit(i: nat): nat
    requires i <= 4
  {
    if i == 0 then 1 else 16 * Limit(i - 1)
  }

  lemma {:induction false} CategoryFits(mem: seq<char>, p: nat, i: nat, value: nat)
    requires i <= 4 && value < Limit(i)
    ensures CategoryAt(mem, p, i, value).Number? ==> CategoryAt(mem, p, i, value).value < 0x1_0000
    decreases 4 - i
  {
    if i < 4 {
      if IsHexDigit(CharAt(mem, p)) {
        CategoryFits(mem, p + 1, i + 1, 16 * value + Nibble(CharAt(mem, p)));
      }
    } else {
      LimitFour();
    }
  }

  lemma LimitFour()
    ensures Limit(4) == 0x1_0000
  {
  }

  datatype Parsed =
    | Invalid
    | Last(info: Info)
    | More(info: Info, next: nat)

  /** One entry. The character behind the type is skipped, whatever it is. */
  function ParsedAt(mem: seq<char>, p: nat): Parsed {
    TypeFits(mem, p, 0, 0);
    match TypeAt(mem, p, 0, 0)
    case Refused => Invalid
    case Number(kind, q) =>
      CategoryFits(mem, q + 1, 0, 0);
      match CategoryAt(mem, q + 1, 0, 0)
      case Refused => Invalid
      case Number(category, r) =>
        if CharAt(mem, r) == '\0' then Last(Info(kind, category))
        else if CharAt(mem, r) == ',' || CharAt(mem, r) == ' ' then More(Info(kind, category), r + 1)
        else Invalid
  }

  /** The digits in both cases, and what each stands for. */
  lemma Digits(n: nat)
    requires n < 16
    ensures IsHexDigit("0123456789ABCDEF"[n]) && Nibble("0123456789ABCDEF"[n]) == n
    ensures IsHexDigit("0123456789abcdef"[n]) && Nibble("0123456789abcdef"[n]) == n
  {
    if n >= 10 {
      assert "0123456789ABCDEF"[n] == ('A' as int + (n - 10)) as char;
      assert "0123456789abcdef"[n] == ('a' as int + (n - 10)) as char;
    } else {
      assert "0123456789ABCDEF"[n] == "0123456789abcdef"[n] == ('0' as int + n) as char;
    }
  }

  /** And there are no others. */
  lemma DigitsOnly(c: char)
    requires IsHexDigit(c)
    ensures c == "0123456789ABCDEF"[Nibble(c)] || c == "0123456789abcdef"[Nibble(c)]
  {
    if c > '9' {
      assert "ABCDEF"[Nibble(c) - 10] == ('A' as int + (Nibble(c) - 10)) as char;
      assert "0123456789ABCDEF"[Nibble(c)] == ('A' as int + (Nibble(c) - 10)) as char;
      assert "0123456789abcdef"[Nibble(c)] == ('a' as int + (Nibble(c) - 10)) as char;
    } else {
      assert "0123456789ABCDEF"[Nibble(c)] == ('0' as int + Nibble(c)) as char;
    }
  }

  predicate FourDigits(mem: seq<char>, p: nat) {
    IsHexDigit(CharAt(mem, p)) && IsHexDigit(CharAt(mem, p + 1)) && IsHexDigit(CharAt(mem, p + 2)) && IsHexDigit(CharAt(mem, p + 3))
  }

  function FourValue(mem: seq<char>, p: nat): nat
    requires FourDigits(mem, p)
  {
    0x1000 * Nibble(CharAt(mem, p)) + 0x100 * Nibble(CharAt(mem, p + 1)) + 0x10 * Nibble(CharAt(mem, p + 2)) + Nibble(CharAt(mem, p + 3))
  }

  lemma CategoryGrammar(mem: seq<char>, p: nat)
    ensures CategoryAt(mem, p, 0, 0) ==
      if !FourDigits(mem, p) then Refused
      else Number(FourValue(mem, p), p + 4)
  {
    var a := CategoryNext(mem, p, 0, 0);
    if IsHexDigit(CharAt(mem, p)) {
      var b := CategoryNext(mem, p + 1, 1, a);
      if IsHexDigit(CharAt(mem, p + 1)) {
        var c := CategoryNext(mem, p + 2, 2, b);
        if IsHexDigit(CharAt(mem, p + 2)) {
          var _ := CategoryNext(mem, p + 3, 3, c);
        }
      }
    }
  }

  lemma CategoryNext(mem: seq<char>, p: nat, i: nat, value: nat) returns (next: nat)
    requires i < 4
    ensures if IsHexDigit(CharAt(mem, p))
      then next == 16 * value + Nibble(CharAt(mem, p)) && CategoryAt(mem, p, i, value) == CategoryAt(mem, p + 1, i + 1, next)
      else CategoryAt(mem, p, i, value) == Refused
  {
    next := if IsHexDigit(CharAt(mem, p)) then 16 * value + Nibble(CharAt(mem, p)) else 0;
  }

  /** How many digits of the type there are in front of the first colon, two at most. */
  function TypeLength(mem: seq<char>, p: nat): nat {
    if CharAt(mem, p) == ':' then 0 else if CharAt(mem, p + 1) == ':' then 1 else 2
  }

  predicate Typed(mem: seq<char>, p: nat, t: nat) {
    t <= 2 && (t >= 1 ==> IsHexDigit(CharAt(mem, p))) && (t == 2 ==> IsHexDigit(CharAt(mem, p + 1)))
  }

  function TypeValue(mem: seq<char>, p: nat, t: nat): nat
    requires Typed(mem, p, t)
  {
    if t == 0 then 0 else if t == 1 then Nibble(CharAt(mem, p)) else 16 * Nibble(CharAt(mem, p)) + Nibble(CharAt(mem, p + 1))
  }

  lemma TypeGrammar(mem: seq<char>, p: nat)
    ensures var t := TypeLength(mem, p);
      TypeAt(mem, p, 0, 0) == if Typed(mem, p, t) then Number(TypeValue(mem, p, t), p + t) else Refused
  {
    if TypeLength(mem, p) == 2 && IsHexDigit(CharAt(mem, p)) && IsHexDigit(CharAt(mem, p + 1)) {
      assert TypeAt(mem, p + 1, 1, Nibble(CharAt(mem, p)))
          == TypeAt(mem, p + 2, 2, 16 * Nibble(CharAt(mem, p)) + Nibble(CharAt(mem, p + 1)));
    }
  }

  /** The grammar of one entry: up to two digits for the type, any one character, four digits for the category, and
      then a NUL that ends the text, or a comma or space that another entry may follow. */
  lemma EntryGrammar(mem: seq<char>, p: nat)
    ensures var t := TypeLength(mem, p);
      var behind := CharAt(mem, p + t + 5);
      match ParsedAt(mem, p)
      case Invalid => !Typed(mem, p, t) || !FourDigits(mem, p + t + 1) || behind !in {'\0', ',', ' '}
      case Last(info) => behind == '\0' && Says(mem, p, t, info)
      case More(info, next) => behind in {',', ' '} && next == p + t + 6 && Says(mem, p, t, info)
  {
    TypeGrammar(mem, p);
    CategoryGrammar(mem, p + TypeLength(mem, p) + 1);
    TypeFits(mem, p, 0, 0);
    CategoryFits(mem, p + TypeLength(mem, p) + 1, 0, 0);
  }

  /** The numbers of an entry are those that its digits make. */
  ghost predicate Says(mem: seq<char>, p: nat, t: nat, info: Info) {
    && Typed(mem, p, t) && FourDigits(mem, p + t + 1)
    && info.kind == TypeValue(mem, p, t)
    && info.category == FourValue(mem, p + t + 1)
  }

  /** The entries up to the first invalid one, no more than there is room for. */
  function EntriesAt(mem: seq<char>, p: nat, room: nat): (infos: seq<Info>)
    ensures |infos| <= room
    decreases room
  {
    if room == 0 then []
    else match ParsedAt(mem, p)
      case Invalid => []
      case Last(info) => [info]
      case More(info, next) => [info] + EntriesAt(mem, next, room - 1)
  }

  /** The same character, or the same digit in upper and lower case. */
  predicate SameButCase(c: char, d: char) {
    || c == d
    || ('A' <= c <= 'F' && d as int == c as int + ('a' as int - 'A' as int))
    || ('A' <= d <= 'F' && c as int == d as int + ('a' as int - 'A' as int))
  }

  lemma SameDigit(c: char, d: char)
    requires SameButCase(c, d)
    ensures IsHexDigit(c) == IsHexDigit(d) && (IsHexDigit(c) ==> Nibble(c) == Nibble(d))
    ensures (c == ':') == (d == ':') && (c == '\0') == (d == '\0') && (c == ',') == (d == ',') && (c == ' ') == (d == ' ')
  {
  }

  lemma SameFour(mem: seq<char>, other: seq<char>, p: nat)
    requires forall i: nat :: SameButCase(CharAt(mem, i), CharAt(other, i))
    ensures FourDigits(mem, p) == FourDigits(other, p) && (FourDigits(mem, p) ==> FourValue(mem, p) == FourValue(other, p))
  {
    SameDigit(CharAt(mem, p), CharAt(other, p));
    SameDigit(CharAt(mem, p + 1), CharAt(other, p + 1));
    SameDigit(CharAt(mem, p + 2), CharAt(other, p + 2));
    SameDigit(CharAt(mem, p + 3), CharAt(other, p + 3));
  }

  lemma SameType(mem: seq<char>, other: seq<char>, p: nat)
    requires forall i: nat :: SameButCase(CharAt(mem, i), CharAt(other, i))
    ensures var t := TypeLength(mem, p);
      t == TypeLength(other, p) && Typed(mem, p, t) == Typed(other, p, t)
      && (Typed(mem, p, t) ==> TypeValue(mem, p, t) == TypeValue(other, p, t))
  {
    SameDigit(CharAt(mem, p), CharAt(other, p));
    SameDigit(CharAt(mem, p + 1), CharAt(other, p + 1));
  }

  /** Texts that differ in the case of their digits say the same, entry by entry. */
  lemma CaseDoesNotMatter(mem: seq<char>, other: seq<char>, p: nat)
    requires forall i: nat :: SameButCase(CharAt(mem, i), CharAt(other, i))
    ensures ParsedAt(mem, p) == ParsedAt(other, p)
  {
    var t := TypeLength(mem, p);
    SameType(mem, other, p);
    SameFour(mem, other, p + t + 1);
    SameDigit(CharAt(mem, p + t + 5), CharAt(other, p + t + 5));
    EntryGrammar(mem, p);
    EntryGrammar(other, p);
  }

  lemma {:induction false} CaseNeverMatters(mem: seq<char>, other: seq<char>, p: nat, room: nat)
    requires forall i: nat :: SameButCase(CharAt(mem, i), CharAt(other, i))
    ensures EntriesAt(mem, p, room) == EntriesAt(other, p, room)
    decreases room
  {
    if room > 0 {
      CaseDoesNotMatter(mem, other, p);
      EntriesNext(mem, p, room);
      EntriesNext(other, p, room);
      if ParsedAt(mem, p).More? {
        CaseNeverMatters(mem, other, ParsedAt(mem, p).next, room - 1);
      }
    }
  }

  // ---- masks

  /** mask | (1 << i) */
  function WithBit(mask: nat, i: nat): nat {
    if i == 0 then (if mask % 2 == 1 then mask else mask + 1)
    else 2 * WithBit(mask / 2, i - 1) + mask % 2
  }

  /** Whether slot j is in a mask. */
  predicate HasBit(mask: nat, j: nat) {
    if j == 0 then mask % 2 == 1 else HasBit(mask / 2, j - 1)
  }

  /** Setting a bit sets that bit and no other. */
  lemma {:induction false} WithBitHas(mask: nat, i: nat, j: nat)
    ensures HasBit(WithBit(mask, i), j) <==> j == i || HasBit(mask, j)
    decreases i
  {
    if i > 0 && j > 0 {
      WithBitHas(mask / 2, i - 1, j - 1);
      assert WithBit(mask, i) / 2 == WithBit(mask / 2, i - 1);
    } else if i > 0 {
      assert WithBit(mask, i) % 2 == mask % 2;
    } else if j > 0 {
      assert WithBit(mask, i) / 2 == mask / 2;
    }
  }

  /** The mask of slots 0 to k - 1. */
  function Ones(k: nat): nat {
    if k == 0 then 0 else 2 * Ones(k - 1) + 1
  }

  predicate IsOnes(mask: nat) {
    mask == 0 || (mask % 2 == 1 && IsOnes(mask / 2))
  }

  lemma {:induction false} OnesGrow(k: nat)
    ensures WithBit(Ones(k), k) == Ones(k + 1)
  {
    if k > 0 {
      OnesGrow(k - 1);
      assert Ones(k) / 2 == Ones(k - 1) && Ones(k) % 2 == 1;
    }
  }

  lemma {:induction false} OnesAreOnes(k: nat)
    ensures IsOnes(Ones(k))
  {
    if k > 0 {
      OnesAreOnes(k - 1);
    }
  }

  lemma {:induction false} OnesHaveCount(mask: nat) returns (k: nat)
    requires IsOnes(mask)
    ensures mask == Ones(k)
  {
    if mask == 0 {
      k := 0;
    } else {
      var half := OnesHaveCount(mask / 2);
      k := half + 1;
    }
  }

  lemma {:induction false} OnesMonotone(k: nat, l: nat)
    requires k <= l
    ensures Ones(k) <= Ones(l)
    ensures k < l ==> Ones(k) < Ones(l)
  {
    if k > 0 {
      OnesMonotone(k - 1, l - 1);
    }
  }

  /** The slots and the mask once the text from a position on has been stored in slots i and up. */
  function Filled(mem: seq<char>, at: Position, slots: seq<Info>, mask: nat, i: nat): (seq<Info>, nat)
    decreases |slots| - i
  {
    if i >= |slots| || at.End? then (slots, mask)
    else match ParsedAt(mem, at.index)
      case Invalid => (slots, mask)
      case Last(info) => (slots[i := info], WithBit(mask, i))
      case More(info, next) => Filled(mem, At(next), slots[i := info], WithBit(mask, i), i + 1)
  }

  /** Slots from i on overwritten. */
  function Spliced(slots: seq<Info>, i: nat, infos: seq<Info>): (s: seq<Info>)
    requires i + |infos| <= |slots|
    ensures infos == [] ==> s == slots
  {
    slots[..i] + infos + slots[i + |infos|..]
  }

  lemma SplicedFirst(slots: seq<Info>, i: nat, info: Info, rest: seq<Info>)
    requires i + 1 + |rest| <= |slots|
    ensures Spliced(slots[i := info], i + 1, rest) == Spliced(slots, i, [info] + rest)
  {
  }

  /** One entry, and on to the next. */
  lemma FilledNext(mem: seq<char>, p: nat, slots: seq<Info>, mask: nat, i: nat)
    requires i < |slots|
    ensures Filled(mem, At(p), slots, mask, i) == match ParsedAt(mem, p)
      case Invalid => Filled(mem, End, slots, mask, i + 1)
      case Last(info) => Filled(mem, End, slots[i := info], WithBit(mask, i), i + 1)
      case More(info, next) => Filled(mem, At(next), slots[i := info], WithBit(mask, i), i + 1)
  {
  }

  lemma EntriesNext(mem: seq<char>, p: nat, room: nat)
    requires room > 0
    ensures EntriesAt(mem, p, room) == match ParsedAt(mem, p)
      case Invalid => []
      case Last(info) => [info]
      case More(info, next) => [info] + EntriesAt(mem, next, room - 1)
  {
  }

  lemma FilledByLast(mem: seq<char>, p: nat, slots: seq<Info>, i: nat, info: Info)
    requires i < |slots| && ParsedAt(mem, p) == Last(info)
    ensures EntriesAt(mem, p, |slots| - i) == [info]
    ensures Filled(mem, At(p), slots, Ones(i), i) == (Spliced(slots, i, [info]), Ones(i + 1))
  {
    OnesGrow(i);
    FilledNext(mem, p, slots, Ones(i), i);
    EntriesNext(mem, p, |slots| - i);
    assert Spliced(slots, i, [info]) == slots[i := info];
  }

  lemma FilledByMore(mem: seq<char>, p: nat, slots: seq<Info>, i: nat, info: Info, next: nat, rest: seq<Info>)
    requires i < |slots| && ParsedAt(mem, p) == More(info, next) && rest == EntriesAt(mem, next, |slots| - i - 1)
    requires Filled(mem, At(next), slots[i := info], Ones(i + 1), i + 1)
          == (Spliced(slots[i := info], i + 1, rest), Ones(i + 1 + |rest|))
    ensures EntriesAt(mem, p, |slots| - i) == [info] + rest
    ensures Filled(mem, At(p), slots, Ones(i), i) == (Spliced(slots, i, [info] + rest), Ones(i + 1 + |rest|))
  {
    OnesGrow(i);
    FilledNext(mem, p, slots, Ones(i), i);
    EntriesNext(mem, p, |slots| - i);
    SplicedFirst(slots, i, info, rest);
  }

  /** Filling from slot i on stores the entries there and extends a mask of i ones. */
  lemma {:induction false} FilledWithEntries(mem: seq<char>, p: nat, slots: seq<Info>, i: nat)
    requires i <= |slots|
    ensures var infos := EntriesAt(mem, p, |slots| - i);
            Filled(mem, At(p), slots, Ones(i), i) == (Spliced(slots, i, infos), Ones(i + |infos|))
    decreases |slots| - i
  {
    if i < |slots| {
      match ParsedAt(mem, p)
      case Invalid =>
      case Last(info) => FilledByLast(mem, p, slots, i, info);
      case More(info, next) =>
        FilledWithEntries(mem, next, slots[i := info], i + 1);
        FilledByMore(mem, p, slots, i, info, next, EntriesAt(mem, next, |slots| - i - 1));
    }
  }

  lemma FilledFromStart(mem: seq<char>, slots: seq<Info>)
    ensures var infos := EntriesAt(mem, 0, |slots|);
      Filled(mem, At(0), slots, 0, 0) == (infos + slots[|infos|..], Ones(|infos|))
  {
    FilledWithEntries(mem, 0, slots, 0);
    var infos := EntriesAt(mem, 0, |slots|);
    assert Ones(0) == 0 && slots[..0] + infos == infos;
  }

  // ---- printing

  /** The last `digits` hexadecimal digits of a number. */
  function Hex(n: nat, digits: nat): (text: string)
    ensures |text| == digits
    decreases digits, n
  {
    if digits == 0 then "" else Hex(n / 16, digits - 1) + [HexChar(n % 16)]
  }

  function Entry(info: Info): (text: string)
    ensures |text| == 7
  {
    Hex(info.kind, 2) + ":" + Hex(info.category, 4)
  }

  lemma HexOne(n: nat)
    requires n < 16
    ensures Hex(n, 1) == [HexChar(n)]
  {
    assert Hex(n / 16, 0) == "";
  }

  lemma HexTwo(n: Byte)
    ensures Hex(n, 2) == [HexChar(n / 16), HexChar(n % 16)]
  {
    HexOne(n / 16);
  }

  lemma HexThree(n: nat)
    requires n < 0x1000
    ensures Hex(n, 3) == [HexChar(n / 0x100), HexChar(n / 0x10 % 16), HexChar(n % 16)]
  {
    HexTwo(n / 16);
    assert n / 16 / 16 == n / 0x100;
  }

  lemma HexFour(n: Word)
    ensures Hex(n, 4) == [HexChar(n / 0x1000), HexChar(n / 0x100 % 16), HexChar(n / 0x10 % 16), HexChar(n % 16)]
  {
    HexThree(n / 16);
    assert n / 16 / 0x100 == n / 0x1000 && n / 16 / 0x10 == n / 0x100;
  }

  /** The slots from i on that the mask selects, its lowest bit standing for slot i. */
  function Selected(slots: seq<Info>, i: nat, mask: nat): (s: seq<Info>)
    requires i <= |slots|
    ensures |s| <= |slots| - i
    decreases |slots| - i
  {
    if i == |slots| then []
    else (if mask % 2 == 1 then [slots[i]] else []) + Selected(slots, i + 1, mask / 2)
  }

  /** Entries, each with a comma behind it. */
  function Terminated(infos: seq<Info>): (text: string)
    ensures |text| == 8 * |infos|
  {
    if infos == [] then "" else Entry(infos[0]) + "," + Terminated(infos[1..])
  }

  /** The text once the slots from i on have been put behind it. */
  function Put(slots: seq<Info>, i: nat, mask: nat, text: string): string
    requires i <= |slots|
    decreases |slots| - i
  {
    if i == |slots| then text
    else Put(slots, i + 1, mask / 2, if mask % 2 == 1 then text + Entry(slots[i]) + "," else text)
  }

  lemma {:induction false} PutsSelected(slots: seq<Info>, i: nat, mask: nat, text: string)
    requires i <= |slots|
    ensures Put(slots, i, mask, text) == text + Terminated(Selected(slots, i, mask))
    decreases |slots| - i
  {
    if i < |slots| {
      var rest := Selected(slots, i + 1, mask / 2);
      if mask % 2 == 1 {
        PutsSelected(slots, i + 1, mask / 2, text + Entry(slots[i]) + ",");
        assert Selected(slots, i, mask)[1..] == rest;
      } else {
        PutsSelected(slots, i + 1, mask / 2, text);
        assert Selected(slots, i, mask) == rest;
      }
    }
  }

  /** The printed form: the last comma makes way for the NUL. */
  function Printed(slots: seq<Info>, mask: nat): string {
    var text := Terminated(Selected(slots, 0, mask));
    if text == "" then "" else text[..|text| - 1]
  }

  // ---- round trip

  lemma TypeStep(mem: seq<char>, p: nat, i: nat, value: nat, digit: nat)
    requires i < 2 && digit < 16 && CharAt(mem, p) == HexChar(digit)
    ensures TypeAt(mem, p, i, value) == TypeAt(mem, p + 1, i + 1, 16 * value + digit)
  {
  }

  lemma CategoryStep(mem: seq<char>, p: nat, i: nat, value: nat, digit: nat)
    requires i < 4 && digit < 16 && CharAt(mem, p) == HexChar(digit)
    ensures CategoryAt(mem, p, i, value) == CategoryAt(mem, p + 1, i + 1, 16 * value + digit)
  {
  }

  predicate TextAt(mem: seq<char>, p: nat, text: string) {
    forall j :: 0 <= j < |text| ==> CharAt(mem, p + j) == text[j]
  }

  lemma TypeParses(mem: seq<char>, p: nat, kind: Byte)
    requires TextAt(mem, p, Hex(kind, 2))
    ensures TypeAt(mem, p, 0, 0) == Number(kind, p + 2)
  {
    HexTwo(kind);
    assert Hex(kind, 2)[0] == HexChar(kind / 16) && Hex(kind, 2)[1] == HexChar(kind % 16);
    assert CharAt(mem, p + 0) == HexChar(kind / 16) && CharAt(mem, p + 1) == HexChar(kind % 16);
    TypeStep(mem, p, 0, 0, kind / 16);
    TypeStep(mem, p + 1, 1, kind / 16, kind % 16);
  }

  lemma {:induction false} CategoryParses(mem: seq<char>, p: nat, i: nat, category: nat)
    requires i <= 4 && TextAt(mem, p, Hex(category, i))
    ensures category < Limit(i) ==> CategoryAt(mem, p, 0, 0) == CategoryAt(mem, p + i, i, category)
  {
    if i > 0 {
      var front := Hex(category / 16, i - 1);
      assert TextAt(mem, p, front) by {
        forall j | 0 <= j < i - 1
          ensures CharAt(mem, p + j) == front[j]
        {
          assert Hex(category, i)[j] == front[j];
        }
      }
      CategoryParses(mem, p, i - 1, category / 16);
      assert Hex(category, i)[i - 1] == HexChar(category % 16);
      CategoryStep(mem, p + i - 1, i - 1, category / 16, category % 16);
    }
  }

  lemma EntryParses(mem: seq<char>, p: nat, info: Info)
    requires TextAt(mem, p, Entry(info))
    requires CharAt(mem, p + 7) == ',' || CharAt(mem, p + 7) == '\0'
    ensures ParsedAt(mem, p) == if CharAt(mem, p + 7) == ',' then More(info, p + 8) else Last(info)
  {
    forall j | 0 <= j < 2
      ensures CharAt(mem, p + j) == Hex(info.kind, 2)[j]
    {
      assert Entry(info)[j] == Hex(info.kind, 2)[j];
    }
    forall j | 0 <= j < 4
      ensures CharAt(mem, p + 3 + j) == Hex(info.category, 4)[j]
    {
      assert Entry(info)[3 + j] == Hex(info.category, 4)[j];
      assert CharAt(mem, p + (3 + j)) == Entry(info)[3 + j];
    }
    TypeParses(mem, p, info.kind);
    CategoryParses(mem, p + 3, 4, info.category);
    LimitFour();
  }

  /** Memory from p on holds these entries, separated by commas and closed by a NUL. */
  ghost predicate Holds(mem: seq<char>, p: nat, infos: seq<Info>) {
    forall m :: 0 <= m < |infos| ==> HoldsEntry(mem, p + 8 * m, infos[m], m == |infos| - 1)
  }

  ghost predicate HoldsEntry(mem: seq<char>, p: nat, info: Info, last: bool) {
    && TextAt(mem, p, Entry(info))
    && CharAt(mem, p + 7) == if last then '\0' else ','
  }

  lemma {:induction false} EntriesParse(mem: seq<char>, p: nat, infos: seq<Info>, room: nat)
    requires 0 < |infos| <= room && Holds(mem, p, infos)
    ensures EntriesAt(mem, p, room) == infos
    decreases |infos|
  {
    assert HoldsEntry(mem, p + 8 * 0, infos[0], |infos| == 1);
    EntryParses(mem, p, infos[0]);
    if |infos| > 1 {
      var rest := infos[1..];
      forall m | 0 <= m < |rest|
        ensures HoldsEntry(mem, p + 8 + 8 * m, rest[m], m == |rest| - 1)
      {
        assert HoldsEntry(mem, p + 8 * (m + 1), infos[m + 1], m + 1 == |infos| - 1);
      }
      EntriesParse(mem, p + 8, rest, room - 1);
    }
  }

  lemma SliceBehind(front: string, rest: string, from: nat, to: nat)
    requires from <= to <= |rest|
    ensures (front + rest)[|front| + from..|front| + to] == rest[from..to]
  {
  }

  lemma FirstTerminated(info: Info, rest: string)
    ensures var text := Entry(info) + "," + rest; text[..7] == Entry(info) && text[7] == ','
  {
  }

  /** Where the m-th entry stands in the printed text. */
  lemma {:induction false} TerminatedAt(infos: seq<Info>, m: nat)
    requires m < |infos|
    ensures Terminated(infos)[8 * m..8 * m + 7] == Entry(infos[m])
    ensures Terminated(infos)[8 * m + 7] == ','
  {
    var front, rest := Entry(infos[0]) + ",", Terminated(infos[1..]);
    if m == 0 {
      FirstTerminated(infos[0], rest);
    } else {
      TerminatedAt(infos[1..], m - 1);
      SliceBehind(front, rest, 8 * (m - 1), 8 * (m - 1) + 7);
      assert Terminated(infos) == front + rest && |front| == 8;
      assert (front + rest)[8 + (8 * (m - 1) + 7)] == rest[8 * (m - 1) + 7];
    }
  }

  /** A memory that holds a text as a C string. */
  ghost predicate IsCString(mem: seq<char>, text: string) {
    && (forall j :: 0 <= j < |text| ==> CharAt(mem, j) == text[j])
    && CharAt(mem, |text|) == '\0'
  }

  lemma PrintedHolds(mem: seq<char>, slots: seq<Info>, mask: nat)
    requires IsCString(mem, Printed(slots, mask))
    ensures Holds(mem, 0, Selected(slots, 0, mask))
  {
    var infos := Selected(slots, 0, mask);
    forall m | 0 <= m < |infos|
      ensures HoldsEntry(mem, 0 + 8 * m, infos[m], m == |infos| - 1)
    {
      TerminatedAt(infos, m);
      forall j | 0 <= j < 7
        ensures CharAt(mem, 8 * m + j) == Entry(infos[m])[j]
      {
        assert Terminated(infos)[8 * m..8 * m + 7][j] == Terminated(infos)[8 * m + j];
      }
    }
  }

  /** Reading back what was printed gives the selected slots, in order and from slot 0 on. */
  lemma PrintedParses(mem: seq<char>, slots: seq<Info>, mask: nat)
    requires IsCString(mem, Printed(slots, mask))
    ensures EntriesAt(mem, 0, |slots|) == Selected(slots, 0, mask)
  {
    var infos := Selected(slots, 0, mask);
    if infos == [] {
      assert Printed(slots, mask) == "";
      assert CharAt(mem, 0) == '\0';
    } else {
      PrintedHolds(mem, slots, mask);
      EntriesParse(mem, 0, infos, |slots|);
    }
  }

  lemma {:induction false} SelectedByOnes(slots: seq<Info>, i: nat, k: nat)
    requires i <= |slots|
    ensures Selected(slots, i, Ones(k)) == slots[i..if |slots| < i + k then |slots| else i + k]
    decreases |slots| - i
  {
    if i < |slots| {
      if k > 0 {
        assert Ones(k) / 2 == Ones(k - 1) && Ones(k) % 2 == 1;
        SelectedByOnes(slots, i + 1, k - 1);
      } else {
        SelectedByOnes(slots, i + 1, 0);
      }
    }
  }

  /** The mask and the slots survive printing and reading back exactly if the mask selects a first few
      slots and no others. */
  lemma RoundTripIff(mem: seq<char>, slots: seq<Info>, mask: nat)
    requires IsCString(mem, Printed(slots, mask))
    ensures Ones(|EntriesAt(mem, 0, |slots|)|) == mask <==> IsOnes(mask) && mask <= Ones(|slots|)
    ensures IsOnes(mask) && mask <= Ones(|slots|) ==>
      EntriesAt(mem, 0, |slots|) == slots[..|EntriesAt(mem, 0, |slots|)|]
  {
    PrintedParses(mem, slots, mask);
    var k := |Selected(slots, 0, mask)|;
    OnesAreOnes(k);
    OnesMonotone(k, |slots|);
    if IsOnes(mask) && mask <= Ones(|slots|) {
      var l := OnesHaveCount(mask);
      if l > |slots| {
        OnesMonotone(|slots|, l);
      }
      SelectedByOnes(slots, 0, l);
    }
  }

  lemma PrintedLength(slots: seq<Info>, mask: nat, k: nat)
    requires mask == Ones(k) && 0 < k <= |slots|
    ensures |Printed(slots, mask)| == 8 * k - 1
  {
    SelectedByOnes(slots, 0, k);
  }

  // ---- the buffer

  /** Memory with a text written from index i on. */
  function Replaced(mem: seq<char>, i: nat, text: string): (m: seq<char>)
    requires i + |text| <= |mem|
    ensures |m| == |mem|
  {
    mem[..i] + text + mem[i + |text|..]
  }

  lemma ReplacedNext(mem: seq<char>, i: nat, first: string, second: string)
    requires i + |first| + |second| <= |mem|
    ensures Replaced(Replaced(mem, i, first), i + |first|, second) == Replaced(mem, i, first + second)
  {
  }

  /** Part of the way through printing: the text of the slots before i stands in memory. */
  ghost predicate PutUpTo(slots: seq<Info>, mask: nat, was: seq<char>, i: nat, m: nat, text: string, now: seq<char>) {
    && i <= |slots| && |text| <= 8 * i && |was| == 8 * |slots| + 1
    && Put(slots, i, m, text) == Put(slots, 0, mask, "")
    && now == Replaced(was, 1, text)
  }

  lemma PutNext(slots: seq<Info>, mask: nat, was: seq<char>, i: nat, m: nat, text: string, now: seq<char>)
    requires PutUpTo(slots, mask, was, i, m, text, now) && i < |slots|
    ensures
      if m % 2 == 1 then
        var entry := Entry(slots[i]) + ",";
        PutUpTo(slots, mask, was, i + 1, m / 2, text + entry, Replaced(now, |text| + 1, entry))
      else PutUpTo(slots, mask, was, i + 1, m / 2, text, now)
  {
    ReplacedNext(was, 1, text, Entry(slots[i]) + ",");
    assert text + Entry(slots[i]) + "," == text + (Entry(slots[i]) + ",");
  }

  lemma AllPut(slots: seq<Info>, mask: nat, was: seq<char>, m: nat, text: string, now: seq<char>)
    requires PutUpTo(slots, mask, was, |slots|, m, text, now)
    ensures text == Terminated(Selected(slots, 0, mask)) && |text| < |was| && now == Replaced(was, 1, text)
  {
    PutsSelected(slots, 0, mask, "");
  }

  /** The buffer has 7 characters for each slot. */
  function BufferSize(slots: seq<Info>): nat {
    7 * |slots|
  }

  /** Memory after printing: index 0 is the byte in front of the buffer, and the entries go in from index 1 on
      even where they do not fit. */
  function Written(mem: seq<char>, slots: seq<Info>, mask: nat): (m: seq<char>)
    requires |mem| == 8 * |slots| + 1 && slots != []
    ensures |m| == |mem|
  {
    if mask == 0 then mem[1 := '\0']
    else
      var text := Terminated(Selected(slots, 0, mask));
      Replaced(mem, 1, text)[|text| := '\0']
  }

  /** Where the buffer's text stands after printing, if a slot is selected or the mask is zero. */
  lemma WrittenIsPrinted(mem: seq<char>, slots: seq<Info>, mask: nat)
    requires |mem| == 8 * |slots| + 1 && slots != []
    requires mask == 0 || Selected(slots, 0, mask) != []
    ensures IsCString(Written(mem, slots, mask)[1..], Printed(slots, mask))
  {
    if mask == 0 {
      SelectedByOnes(slots, 0, 0);
    } else {
      var text := Terminated(Selected(slots, 0, mask));
      var after := Written(mem, slots, mask)[1..];
      assert after[..|text| - 1] == text[..|text| - 1];
      forall j | 0 <= j < |text| - 1 ensures CharAt(after, j) == text[j] {
        assert after[j] == after[..|text| - 1][j];
      }
    }
  }

  /** Whatever memory holds, printing changes the buffer only. */
  ghost predicate StaysInBuffer(slots: seq<Info>, mask: nat)
    requires slots != []
  {
    forall mem: seq<char>, j: nat :: |mem| == 8 * |slots| + 1 && j < |mem| && !(1 <= j <= BufferSize(slots)) ==>
      Written(mem, slots, mask)[j] == mem[j]
  }

  /** Printing writes inside its buffer exactly for the mask 0, and for masks that select at least one slot and
      few enough for 8 characters each to fit. */
  lemma StaysInBufferIff(slots: seq<Info>, mask: nat)
    requires slots != []
    ensures var k := |Selected(slots, 0, mask)|;
      StaysInBuffer(slots, mask) <==> mask == 0 || (k > 0 && 8 * k <= 7 * |slots|)
  {
    var text := Terminated(Selected(slots, 0, mask));
    if mask != 0 && (text == "" || |text| > BufferSize(slots)) {
      var mem := seq(8 * |slots| + 1, _ => 'x');
      assert Written(mem, slots, mask)[|text|] == '\0' != mem[|text|];
    }
  }

  /** One slot does not fit: its terminating NUL lands behind the buffer. */
  lemma OneSlotOverruns(mem: seq<char>, info: Info)
    requires |mem| == 9
    ensures Selected([info], 0, 1) == [info]
    ensures !StaysInBuffer([info], 1)
    ensures Written(mem, [info], 1)[BufferSize([info]) + 1] == '\0'
  {
    assert Selected([info], 1, 0) == [];
    StaysInBufferIff([info], 1);
    assert Terminated([info][1..]) == "";
    assert |Terminated(Selected([info], 0, 1))| == 8;
  }

  /** With the four slots the stepper modes have, three fit and four do not. */
  lemma FourSlots(slots: seq<Info>, mask: nat)
    requires |slots| == 4
    ensures StaysInBuffer(slots, mask) <==> mask == 0 || 1 <= |Selected(slots, 0, mask)| <= 3
  {
    StaysInBufferIff(slots, mask);
  }

  /** The closing assertion of the printing loop, in 32-bit arithmetic. */
  predicate Asserted(slots: seq<Info>, mask: nat) {
    Unsigned(8 * |Selected(slots, 0, mask)| - 1) <= 7 * |slots|
  }

  /** What that assertion lets through: exactly the masks whose text is one character too long. */
  lemma AssertionMissesIff(slots: seq<Info>, mask: nat)
    requires slots != [] && 8 * |slots| < 0x1_0000_0000 && mask != 0
    ensures Asserted(slots, mask) && !StaysInBuffer(slots, mask) <==> 8 * |Selected(slots, 0, mask)| == 7 * |slots| + 1
    ensures StaysInBuffer(slots, mask) ==> Asserted(slots, mask)
  {
    StaysInBufferIff(slots, mask);
  }

  // ---- the class

  class DmxSlotInfo {
    const slots: array<Info>
    /** The buffer from index 1 on, with the byte in front of it and those behind it that printing can reach. */
    const memory: array<char>

    ghost predicate Valid() {
      0 < slots.Length && memory.Length == 8 * slots.Length + 1
    }

    constructor (size: nat)
      requires 0 < size
      ensures Valid() && slots.Length == size
      ensures forall i :: 0 <= i < size ==> slots[i] == Info(PRIMARY, UNDEFINED)
    {
      slots := new Info[size](_ => Info(PRIMARY, UNDEFINED));
      memory := new char[8 * size + 1](_ => '\0');
    }

    static method Parse(mem: seq<char>, s: nat) returns (next: Position, valid: bool, info: Info)
      ensures match ParsedAt(mem, s)
        case Invalid => !valid && next == End
        case Last(parsed) => valid && info == parsed && next == End
        case More(parsed, at) => valid && info == parsed && next == At(at)
    {
      info := Info(PRIMARY, UNDEFINED);
      var b: nat, i: nat, value: nat := s, 0, 0;
      while i < 2 && CharAt(mem, b) != ':'
        invariant i <= 2 && TypeAt(mem, s, 0, 0) == TypeAt(mem, b, i, value)
      {
        if !IsHexDigit(CharAt(mem, b)) {
          return End, false, info;
        }
        value := 16 * value + Nibble(CharAt(mem, b));
        b := b + 1;
        i := i + 1;
      }
      TypeFits(mem, s, 0, 0);
      var kind := value;
      b := b + 1;
      ghost var q := b;
      i, value := 0, 0;
      while i < 4 && CharAt(mem, b) != ',' && CharAt(mem, b) != '\0'
        invariant i <= 4 && CategoryAt(mem, q, 0, 0) == CategoryAt(mem, b, i, value)
      {
        if !IsHexDigit(CharAt(mem, b)) {
          return End, false, info;
        }
        value := 16 * value + Nibble(CharAt(mem, b));
        b := b + 1;
        i := i + 1;
      }
      if i != 4 {
        return End, false, info;
      }
      if CharAt(mem, b) != ',' && CharAt(mem, b) != ' ' && CharAt(mem, b) != '\0' {
        return End, false, info;
      }
      CategoryFits(mem, q, 0, 0);
      info := Info(kind, value);
      if CharAt(mem, b) == '\0' {
        return End, true, info;
      }
      return At(b + 1), true, info;
    }

    /** The mask has 32 bits, and shifting by more is undefined. */
    method FromString(mem: seq<char>) returns (mask: nat)
      requires Valid() && |EntriesAt(mem, 0, slots.Length)| <= 32
      modifies slots
      ensures var infos := EntriesAt(mem, 0, slots.Length);
              mask == Ones(|infos|) && slots[..] == infos + old(slots[..])[|infos|..]
    {
      ghost var was := slots[..];
      var at: Position := At(0);
      mask := 0;
      for i := 0 to slots.Length
        invariant Filled(mem, at, slots[..], mask, i) == Filled(mem, At(0), was, 0, 0)
      {
        if at.End? {
          break;
        }
        var next, valid, info := Parse(mem, at.index);
        FilledNext(mem, at.index, slots[..], mask, i);
        if valid {
          slots[i] := info;
          mask := WithBit(mask, i);
        }
        at := next;
      }
      FilledFromStart(mem, was);
    }

    method PutSelected(mask: nat) returns (p: nat)
      requires Valid()
      modifies memory
      ensures var text := Terminated(Selected(slots[..], 0, mask));
              p == |text| && memory[..] == Replaced(old(memory[..]), 1, text)
    {
      ghost var infos, was, text := slots[..], memory[..], "";
      p := 0;
      var m := mask;
      for i := 0 to slots.Length
        invariant slots[..] == infos && p == |text| && PutUpTo(infos, mask, was, i, m, text, memory[..])
      {
        p, text := PutIfSelected(p, i, m, infos, mask, was, text);
        m := m / 2;
      }
      AllPut(infos, mask, was, m, text, memory[..]);
    }

    method PutIfSelected(p: nat, i: nat, m: nat, ghost infos: seq<Info>, ghost mask: nat, ghost was: seq<char>,
                         ghost text: string)
      returns (next: nat, ghost longer: string)
      requires Valid() && i < slots.Length && slots[..] == infos && p == |text|
      requires PutUpTo(infos, mask, was, i, m, text, memory[..])
      modifies memory
      ensures slots[..] == infos && next == |longer| && PutUpTo(infos, mask, was, i + 1, m / 2, longer, memory[..])
    {
      next, longer := p, text;
      PutNext(infos, mask, was, i, m, text, memory[..]);
      if m % 2 == 1 {
        PutEntry(p, slots[i]);
        longer := text + (Entry(slots[i]) + ",");
        next := p + 8;
      }
    }

    method ToString(mask: nat)
      requires Valid()
      modifies memory
      ensures memory[..] == Written(old(memory[..]), slots[..], mask)
    {
      if mask == 0 {
        memory[1] := '\0';
        return;
      }
      var p: int := PutSelected(mask);
      p := p - 1;
      memory[p + 1] := '\0';
    }

    method PutEntry(p: nat, info: Info)
      requires p + 9 <= memory.Length
      modifies memory
      ensures memory[..] == Replaced(old(memory[..]), p + 1, Entry(info) + ",")
    {
      ghost var was := memory[..];
      PutKind(p + 1, info.kind);
      PutCategory(p + 4, info.category);
      assert memory[..] == Replaced(was, p + 1, Entry(info) + ",");
    }

    method PutKind(p: nat, kind: Byte)
      requires p + 3 <= memory.Length
      modifies memory
      ensures memory[..] == Replaced(old(memory[..]), p, Hex(kind, 2) + ":")
    {
      HexTwo(kind);
      memory[p] := HexChar(kind / 16);
      memory[p + 1] := HexChar(kind % 16);
      memory[p + 2] := ':';
    }

    method PutCategory(p: nat, category: Word)
      requires p + 5 <= memory.Length
      modifies memory
      ensures memory[..] == Replaced(old(memory[..]), p, Hex(category, 4) + ",")
    {
      HexFour(category);
      memory[p] := HexChar(category / 0x1000);
      memory[p + 1] := HexChar(category / 0x100 % 16);
      memory[p + 2] := HexChar(category / 0x10 % 16);
      memory[p + 3] := HexChar(category % 16);
      memory[p + 4] := ',';
    }
  }
}
