/** One channel's file: lines of the form "v d1,d2,...,dn" giving the bytes to send when the
    channel has value v. */
module ChannelData {
  import opened Dmx
  import opened Text

  const BUFFER: nat := 64

  /** What a list leaves in the buffer, and the length recorded for it if it is not rejected. */
  datatype Parsed = Failed(stored: seq<Slot>) | Serial(stored: seq<Slot>, length: nat)

  /** From position p on, with k read of the current number: a number ends with the character
      that is not a digit, which is skipped; the 64th number ends the line. */
  function ParsedFrom(mem: seq<char>, p: nat, k: nat, stored: seq<Slot>): (r: Parsed)
    requires k <= 255 && |stored| < BUFFER
    ensures stored <= r.stored && |r.stored| <= BUFFER
    ensures r.Serial? ==> r.length <= |r.stored| && r.length < BUFFER
    decreases |mem| - p
  {
    if !IsDigit(CharAt(mem, p)) then Serial(stored, |stored|)
    else
      var n := k * 10 + DigitValue(mem[p]);
      if n > 255 then Failed(stored)
      else if IsDigit(CharAt(mem, p + 1)) then ParsedFrom(mem, p + 1, n, stored)
      else if |stored| == BUFFER - 1 then Serial(stored + [n], BUFFER - 1)
      else ParsedFrom(mem, p + 2, 0, stored + [n])
  }

  /** The number at the head of a line, and where it ends. */
  function Leading(mem: seq<char>, p: nat, k: nat): (nat, nat)
    decreases |mem| - p
  {
    if IsDigit(CharAt(mem, p)) then Leading(mem, p + 1, k * 10 + DigitValue(mem[p])) else (k, p)
  }

  // ---- printing a line, and what parsing it gives

  /** A number in decimal, without leading zeros. */
  function Decimal(n: nat): (text: string)
    ensures text != [] && forall i :: 0 <= i < |text| ==> IsDigit(text[i])
  {
    if n < 10 then [DigitChar(n)] else Decimal(n / 10) + [DigitChar(n % 10)]
  }

  function Listed(numbers: seq<nat>): string
    requires numbers != []
  {
    if |numbers| == 1 then Decimal(numbers[0]) else Decimal(numbers[0]) + "," + Listed(numbers[1..])
  }

  function PrintedLine(v: nat, numbers: seq<nat>): string
    requires numbers != []
  {
    Decimal(v) + " " + Listed(numbers) + "\n"
  }

  /** The value of digits read after k. */
  function ValueAfter(k: nat, digits: string): nat
    requires forall i :: 0 <= i < |digits| ==> IsDigit(digits[i])
    decreases |digits|
  {
    if digits == [] then k
    else
      assert IsDigit(digits[0]);
      ValueAfter(k * 10 + DigitValue(digits[0]), digits[1..])
  }

  lemma {:induction false} ValueAfterAppend(k: nat, digits: string, d: char)
    requires IsDigit(d) && forall i :: 0 <= i < |digits| ==> IsDigit(digits[i])
    ensures ValueAfter(k, digits + [d]) == ValueAfter(k, digits) * 10 + DigitValue(d)
    decreases |digits|
  {
    if digits == [] {
      assert digits + [d] == [d];
      assert ValueAfter(k * 10 + DigitValue(d), [d][1..]) == k * 10 + DigitValue(d);
    } else {
      assert (digits + [d])[1..] == digits[1..] + [d];
      ValueAfterAppend(k * 10 + DigitValue(digits[0]), digits[1..], d);
    }
  }

  lemma {:induction false} ValueOfDecimal(n: nat)
    ensures ValueAfter(0, Decimal(n)) == n
  {
    if n >= 10 {
      ValueOfDecimal(n / 10);
      ValueAfterAppend(0, Decimal(n / 10), DigitChar(n % 10));
    }
  }

  lemma {:induction false} ValueAfterGrows(k: nat, digits: string)
    requires forall i :: 0 <= i < |digits| ==> IsDigit(digits[i])
    ensures ValueAfter(k, digits) >= k
    decreases |digits|
  {
    if digits != [] {
      ValueAfterGrows(k * 10 + DigitValue(digits[0]), digits[1..]);
    }
  }

  /** The buffer reads like this text from p on. */
  ghost predicate TextAt(mem: seq<char>, p: nat, text: string) {
    p + |text| <= |mem| && mem[p..p + |text|] == text
  }

  lemma TextSplit(mem: seq<char>, p: nat, a: string, b: string)
    requires TextAt(mem, p, a + b)
    ensures TextAt(mem, p, a) && TextAt(mem, p + |a|, b)
  {
    assert mem[p..p + |a|] == (a + b)[..|a|] == a;
    assert mem[p + |a|..p + |a| + |b|] == (a + b)[|a|..] == b;
  }

  /** A part, a separator, and the rest. */
  lemma TextParts(mem: seq<char>, p: nat, part: string, separator: char, rest: string)
    requires TextAt(mem, p, part + ([separator] + rest))
    ensures TextAt(mem, p, part) && CharAt(mem, p + |part|) == separator && TextAt(mem, p + |part| + 1, rest)
  {
    TextSplit(mem, p, part, [separator] + rest);
    TextSplit(mem, p + |part|, [separator], rest);
    assert mem[p + |part|] == mem[p + |part|..p + |part| + 1][0];
  }

  lemma {:induction false} LeadingDigits(mem: seq<char>, p: nat, k: nat, digits: string)
    requires TextAt(mem, p, digits) && forall i :: 0 <= i < |digits| ==> IsDigit(digits[i])
    requires !IsDigit(CharAt(mem, p + |digits|))
    ensures Leading(mem, p, k) == (ValueAfter(k, digits), p + |digits|)
    decreases |digits|
  {
    if digits != [] {
      assert mem[p] == digits[0];
      assert digits == [digits[0]] + digits[1..];
      TextSplit(mem, p, [digits[0]], digits[1..]);
      LeadingDigits(mem, p + 1, k * 10 + DigitValue(digits[0]), digits[1..]);
    }
  }

  /** A run of digits that ends is read as one number. */
  lemma {:induction false} NumberRead(mem: seq<char>, p: nat, k: nat, digits: string, stored: seq<Slot>)
    requires TextAt(mem, p, digits) && digits != [] && forall i :: 0 <= i < |digits| ==> IsDigit(digits[i])
    requires !IsDigit(CharAt(mem, p + |digits|)) && k <= 255 && |stored| < BUFFER
    ensures var n := ValueAfter(k, digits);
      ParsedFrom(mem, p, k, stored) ==
        if n > 255 then Failed(stored)
        else if |stored| == BUFFER - 1 then Serial(stored + [n], BUFFER - 1)
        else ParsedFrom(mem, p + |digits| + 1, 0, stored + [n])
    decreases |digits|
  {
    assert mem[p] == digits[0];
    assert digits == [digits[0]] + digits[1..];
    TextSplit(mem, p, [digits[0]], digits[1..]);
    var n := k * 10 + DigitValue(digits[0]);
    ValueAfterGrows(n, digits[1..]);
    if |digits| == 1 {
      assert ValueAfter(n, digits[1..]) == n;
    } else {
      assert mem[p + 1] == digits[1..][0];
      if n <= 255 {
        NumberRead(mem, p + 1, n, digits[1..], stored);
      }
    }
  }

  /** The first numbers of a list, as many as the buffer still takes. */
  function Fitting(numbers: seq<nat>, used: nat): seq<nat>
    requires used <= BUFFER
  {
    if |numbers| <= BUFFER - used then numbers else numbers[..BUFFER - used]
  }

  predicate AllBytes(numbers: seq<nat>) {
    forall i :: 0 <= i < |numbers| ==> numbers[i] <= 255
  }

  /** The numbers up to the first that is not a byte. */
  function Accepted(numbers: seq<nat>): (bytes: seq<Slot>)
    ensures |bytes| <= |numbers| && forall i :: 0 <= i < |bytes| ==> bytes[i] == numbers[i]
    ensures if AllBytes(numbers) then |bytes| == |numbers| else |bytes| < |numbers| && numbers[|bytes|] > 255
  {
    if numbers == [] || numbers[0] > 255 then []
    else
      assert AllBytes(numbers) == AllBytes(numbers[1..]) by { assert numbers == [numbers[0]] + numbers[1..]; }
      [numbers[0]] + Accepted(numbers[1..])
  }

  function Smaller(a: nat, b: nat): nat {
    if a < b then a else b
  }

  /** Number by number: what a list does to what has been stored so far. */
  function ListOutcome(numbers: seq<nat>, stored: seq<Slot>): Parsed
    requires numbers != [] && |stored| < BUFFER
    decreases |numbers|
  {
    var n := numbers[0];
    if n > 255 then Failed(stored)
    else if |stored| == BUFFER - 1 then Serial(stored + [n], BUFFER - 1)
    else if |numbers| == 1 then Serial(stored + [n], |stored| + 1)
    else ListOutcome(numbers[1..], stored + [n])
  }

  /** The first number of a list, up to the separator behind it. */
  lemma FirstRead(mem: seq<char>, p: nat, n: nat, digits: string, separator: char, rest: string, stored: seq<Slot>)
    requires TextAt(mem, p, digits + ([separator] + rest)) && !IsDigit(separator) && |stored| < BUFFER
    requires digits != [] && (forall i :: 0 <= i < |digits| ==> IsDigit(digits[i])) && ValueAfter(0, digits) == n
    ensures TextAt(mem, p + |digits| + 1, rest)
    ensures ParsedFrom(mem, p, 0, stored) ==
      if n > 255 then Failed(stored)
      else if |stored| == BUFFER - 1 then Serial(stored + [n], BUFFER - 1)
      else ParsedFrom(mem, p + |digits| + 1, 0, stored + [n])
  {
    TextParts(mem, p, digits, separator, rest);
    NumberRead(mem, p, 0, digits, stored);
  }

  lemma ListSplits(numbers: seq<nat>)
    requires |numbers| > 1
    ensures Listed(numbers) + "\n" == Decimal(numbers[0]) + ([','] + (Listed(numbers[1..]) + "\n"))
    ensures |Listed(numbers)| == |Decimal(numbers[0])| + 1 + |Listed(numbers[1..])|
  {
  }

  /** The first of several numbers, and where the others stand. */
  lemma NextRead(mem: seq<char>, p: nat, numbers: seq<nat>, stored: seq<Slot>) returns (q: nat)
    requires |numbers| > 1 && TextAt(mem, p, Listed(numbers) + "\n") && |stored| < BUFFER
    ensures TextAt(mem, q, Listed(numbers[1..]) + "\n") && q + |Listed(numbers[1..])| == p + |Listed(numbers)|
    ensures var n := numbers[0];
      ParsedFrom(mem, p, 0, stored) ==
        if n > 255 then Failed(stored)
        else if |stored| == BUFFER - 1 then Serial(stored + [n], BUFFER - 1)
        else ParsedFrom(mem, q, 0, stored + [n])
  {
    var digits := Decimal(numbers[0]);
    q := p + |digits| + 1;
    ValueOfDecimal(numbers[0]);
    ListSplits(numbers);
    FirstRead(mem, p, numbers[0], digits, ',', Listed(numbers[1..]) + "\n", stored);
  }

  lemma LastRead(mem: seq<char>, p: nat, n: nat, digits: string, stored: seq<Slot>)
    requires TextAt(mem, p, digits) && CharAt(mem, p + |digits|) == '\n' && !IsDigit(CharAt(mem, p + |digits| + 1))
    requires digits != [] && (forall i :: 0 <= i < |digits| ==> IsDigit(digits[i])) && ValueAfter(0, digits) == n
    requires |stored| < BUFFER
    ensures ParsedFrom(mem, p, 0, stored) ==
      if n > 255 then Failed(stored) else Serial(stored + [n], Smaller(|stored| + 1, BUFFER - 1))
  {
    NumberRead(mem, p, 0, digits, stored);
  }

  lemma OnlyRead(mem: seq<char>, p: nat, numbers: seq<nat>, stored: seq<Slot>)
    requires |numbers| == 1 && TextAt(mem, p, Listed(numbers) + "\n") && |stored| < BUFFER
    requires !IsDigit(CharAt(mem, p + |Listed(numbers)| + 1))
    ensures ParsedFrom(mem, p, 0, stored) ==
      if numbers[0] > 255 then Failed(stored) else Serial(stored + [numbers[0]], Smaller(|stored| + 1, BUFFER - 1))
  {
    ValueOfDecimal(numbers[0]);
    TextParts(mem, p, Decimal(numbers[0]), '\n', "");
    LastRead(mem, p, numbers[0], Decimal(numbers[0]), stored);
  }

  lemma {:induction false} ListRead(mem: seq<char>, p: nat, numbers: seq<nat>, stored: seq<Slot>)
    requires numbers != [] && TextAt(mem, p, Listed(numbers) + "\n") && |stored| < BUFFER
    requires !IsDigit(CharAt(mem, p + |Listed(numbers)| + 1))
    ensures ParsedFrom(mem, p, 0, stored) == ListOutcome(numbers, stored)
    decreases |numbers|
  {
    if |numbers| == 1 {
      OnlyRead(mem, p, numbers, stored);
    } else {
      var q := NextRead(mem, p, numbers, stored);
      if numbers[0] <= 255 && |stored| < BUFFER - 1 {
        ListRead(mem, q, numbers[1..], stored + [numbers[0]]);
      }
    }
  }

  /** What a list leads to if these of its numbers fit and it would record this length. */
  function Outcome(stored: seq<Slot>, fit: seq<nat>, length: nat): Parsed {
    if AllBytes(fit) then Serial(stored + Accepted(fit), Smaller(length, BUFFER - 1))
    else Failed(stored + Accepted(fit))
  }

  lemma OutcomeNext(stored: seq<Slot>, n: nat, rest: seq<nat>, length: nat)
    ensures Outcome(stored, [n] + rest, length)
         == if n > 255 then Failed(stored) else Outcome(stored + [n], rest, length)
  {
    assert ([n] + rest)[1..] == rest;
    assert n <= 255 ==> stored + ([n] + Accepted(rest)) == stored + [n] + Accepted(rest);
  }

  lemma {:induction false} ListOutcomeIs(numbers: seq<nat>, stored: seq<Slot>)
    requires numbers != [] && |stored| < BUFFER
    ensures ListOutcome(numbers, stored) == Outcome(stored, Fitting(numbers, |stored|), |stored| + |numbers|)
    decreases |numbers|
  {
    var n, rest := numbers[0], Fitting(numbers[1..], |stored| + 1);
    FittingNext(numbers, |stored|);
    OutcomeNext(stored, n, rest, |stored| + |numbers|);
    if n <= 255 {
      if |stored| == BUFFER - 1 || |numbers| == 1 {
        assert rest == [];
      } else {
        ListOutcomeIs(numbers[1..], stored + [n]);
      }
    }
  }

  lemma FittingNext(numbers: seq<nat>, used: nat)
    requires numbers != [] && used < BUFFER
    ensures Fitting(numbers, used) == [numbers[0]] + Fitting(numbers[1..], used + 1)
  {
  }

  // ---- a whole file

  datatype Code = FAILED | SERIAL | NONE | EOFILE

  /** The bytes written to each value's buffer, and the length recorded for it. */
  datatype Table = Table(data: map<nat, seq<Slot>>, lengths: map<nat, nat>) {
    function Length(v: nat): nat {
      if v in lengths then lengths[v] else 0
    }

    /** Every value's recorded length lies within what has been written to its buffer. */
    ghost predicate Filled() {
      forall v :: v in data ==> Length(v) <= |data[v]|
    }
  }

  /** What one line does. */
  datatype Line = Skipped | Rejected | List(value: nat, outcome: Parsed) {
    predicate Fails() {
      Rejected? || (List? && outcome.Failed?)
    }

    /** Records a length for this value. */
    predicate Records(v: nat) {
      List? && value == v && outcome.Serial?
    }

    function Code(): Code {
      if Skipped? then NONE else if Fails() then FAILED else SERIAL
    }
  }

  /** A line that does not begin with a digit is skipped. */
  function LineOf(mem: seq<char>): Line {
    if !IsDigit(CharAt(mem, 0)) then Skipped else DigitLine(mem)
  }

  function DigitLine(mem: seq<char>): Line {
    var (v, end) := Leading(mem, 0, 0);
    if v > 255 || CharAt(mem, end) != ' ' then Rejected else List(v, ParsedFrom(mem, end + 1, 0, []))
  }

  /** The value at the head of a line, and where its list stands. */
  lemma HeadOfLine(mem: seq<char>, v: nat, list: string)
    requires TextAt(mem, 0, Decimal(v) + ([' '] + list))
    ensures IsDigit(CharAt(mem, 0)) && Leading(mem, 0, 0) == (v, |Decimal(v)|) && CharAt(mem, |Decimal(v)|) == ' '
    ensures TextAt(mem, |Decimal(v)| + 1, list)
  {
    var digits := Decimal(v);
    TextParts(mem, 0, digits, ' ', list);
    assert mem[0] == mem[0..|digits|][0] == digits[0];
    ValueOfDecimal(v);
    LeadingDigits(mem, 0, 0, digits);
  }

  /** Parsing a printed line, whatever is behind its end in the buffer. A value above 255 is rejected; otherwise
      the line is a list for its value: rejected exactly when one of the first 64 entries exceeds 255, with
      the entries before it stored, or else stored as a whole, with a length of at most 63. */
  lemma LineRoundTrip(mem: seq<char>, v: nat, numbers: seq<nat>)
    requires numbers != [] && TextAt(mem, 0, PrintedLine(v, numbers) + "\0")
    ensures LineOf(mem) == if v > 255 then Rejected else List(v, Outcome([], Fitting(numbers, 0), |numbers|))
  {
    var list := Listed(numbers) + "\n";
    assert PrintedLine(v, numbers) + "\0" == Decimal(v) + ([' '] + (list + (['\0'] + "")));
    HeadOfLine(mem, v, list + (['\0'] + ""));
    TextParts(mem, |Decimal(v)| + 1, list, '\0', "");
    ListRead(mem, |Decimal(v)| + 1, numbers, []);
    ListOutcomeIs(numbers, []);
  }

  // ---- lines without a newline at their end

  /** Where a list from p on stops being read, with this many numbers stored. */
  function StopsAt(mem: seq<char>, p: nat, k: nat, used: nat): nat
    requires k <= 255 && used < BUFFER
    decreases |mem| - p
  {
    if !IsDigit(CharAt(mem, p)) then p
    else
      var n := k * 10 + DigitValue(mem[p]);
      if n > 255 then p
      else if IsDigit(CharAt(mem, p + 1)) then StopsAt(mem, p + 1, n, used)
      else if used == BUFFER - 1 then p + 1
      else StopsAt(mem, p + 2, 0, used + 1)
  }

  /** Reading goes on behind the end of this text: its last number is accepted, and the character behind that,
      the terminating NUL, is skipped like any other. */
  predicate RunsOn(text: seq<char>) {
    IsDigit(CharAt(text, 0)) &&
    var (v, end) := Leading(text, 0, 0);
    v <= 255 && CharAt(text, end) == ' ' && StopsAt(text, end + 1, 0, 0) > |text|
  }

  /** A buffer with this text in it, its NUL, and what was behind it. */
  function Terminated(text: seq<char>, rest: seq<char>): seq<char> {
    text + ['\0'] + rest
  }

  lemma {:induction false} SameLeading(text: seq<char>, rest: seq<char>, p: nat, k: nat)
    requires p <= |text|
    ensures Leading(Terminated(text, rest), p, k) == Leading(text, p, k) && Leading(text, p, k).1 <= |text|
    decreases |text| - p
  {
    if IsDigit(CharAt(text, p)) {
      SameLeading(text, rest, p + 1, k * 10 + DigitValue(text[p]));
    }
  }

  lemma {:induction false} StopsBehind(mem: seq<char>, p: nat, k: nat, used: nat)
    requires k <= 255 && used < BUFFER
    ensures StopsAt(mem, p, k, used) >= p
    decreases |mem| - p
  {
    if IsDigit(CharAt(mem, p)) {
      var n := k * 10 + DigitValue(mem[p]);
      if n <= 255 && IsDigit(CharAt(mem, p + 1)) {
        StopsBehind(mem, p + 1, n, used);
      } else if n <= 255 && used < BUFFER - 1 {
        StopsBehind(mem, p + 2, 0, used + 1);
      }
    }
  }

  lemma {:induction false} SameUpToNul(text: seq<char>, rest: seq<char>, p: nat, k: nat, stored: seq<Slot>)
    requires p <= |text| && k <= 255 && |stored| < BUFFER && StopsAt(text, p, k, |stored|) <= |text|
    ensures ParsedFrom(Terminated(text, rest), p, k, stored) == ParsedFrom(text, p, k, stored)
    decreases |text| - p
  {
    if IsDigit(CharAt(text, p)) {
      var n := k * 10 + DigitValue(text[p]);
      assert CharAt(Terminated(text, rest), p + 1) == CharAt(text, p + 1);
      if n <= 255 && IsDigit(CharAt(text, p + 1)) {
        SameUpToNul(text, rest, p + 1, n, stored);
      } else if n <= 255 && |stored| < BUFFER - 1 {
        StopsBehind(text, p + 2, 0, |stored| + 1);
        SameUpToNul(text, rest, p + 2, 0, stored + [n]);
      }
    }
  }

  lemma {:induction false} ParsedBehind(text: seq<char>, rest: seq<char>, p: nat, k: nat, stored: seq<Slot>)
    requires k <= 255 && |stored| < BUFFER
    ensures ParsedFrom(Terminated(text, rest), |text| + 1 + p, k, stored) == ParsedFrom(rest, p, k, stored)
    decreases |rest| - p
  {
    var mem, q := Terminated(text, rest), |text| + 1 + p;
    assert CharAt(mem, q) == CharAt(rest, p) && CharAt(mem, q + 1) == CharAt(rest, p + 1);
    if IsDigit(CharAt(rest, p)) {
      var n := k * 10 + DigitValue(rest[p]);
      if n <= 255 && IsDigit(CharAt(rest, p + 1)) {
        ParsedBehind(text, rest, p + 1, n, stored);
      } else if n <= 255 && |stored| < BUFFER - 1 {
        ParsedBehind(text, rest, p + 2, 0, stored + [n]);
      }
    }
  }

  /** A list that runs on continues with what is behind the NUL. */
  lemma {:induction false} RunsOnInto(text: seq<char>, rest: seq<char>, p: nat, k: nat, stored: seq<Slot>)
    requires p <= |text| && k <= 255 && |stored| < BUFFER && StopsAt(text, p, k, |stored|) > |text|
    ensures var alone := ParsedFrom(text, p, k, stored);
      && |alone.stored| < BUFFER
      && ParsedFrom(Terminated(text, rest), p, k, stored) == ParsedFrom(rest, 0, 0, alone.stored)
    decreases |text| - p
  {
    var n := k * 10 + DigitValue(text[p]);
    assert CharAt(Terminated(text, rest), p + 1) == CharAt(text, p + 1);
    if IsDigit(CharAt(text, p + 1)) {
      RunsOnInto(text, rest, p + 1, n, stored);
    } else if p + 2 <= |text| {
      RunsOnInto(text, rest, p + 2, 0, stored + [n]);
    } else {
      assert ParsedFrom(text, p + 2, 0, stored + [n]) == Serial(stored + [n], |stored| + 1);
      ParsedBehind(text, rest, 0, 0, stored + [n]);
    }
  }

  /** What a line without a newline leads to. */
  lemma UnterminatedLine(text: seq<char>, rest: seq<char>)
    ensures !RunsOn(text) ==> LineOf(Terminated(text, rest)) == LineOf(text)
    ensures RunsOn(text) ==>
      var (v, end) := Leading(text, 0, 0);
      var alone := ParsedFrom(text, end + 1, 0, []);
      |alone.stored| < BUFFER && LineOf(Terminated(text, rest)) == List(v, ParsedFrom(rest, 0, 0, alone.stored))
  {
    var mem := Terminated(text, rest);
    assert CharAt(mem, 0) == CharAt(text, 0);
    SameLeading(text, rest, 0, 0);
    var (v, end) := Leading(text, 0, 0);
    assert CharAt(mem, end) == CharAt(text, end);
    if v <= 255 && CharAt(text, end) == ' ' {
      if StopsAt(text, end + 1, 0, 0) > |text| {
        RunsOnInto(text, rest, end + 1, 0, []);
      } else {
        SameUpToNul(text, rest, end + 1, 0, []);
      }
    }
  }

  /** The outcome depends on what is behind the NUL exactly if a number that is accepted ends at it. */
  lemma BehindNulIff(text: seq<char>)
    ensures (forall rest: seq<char> :: LineOf(Terminated(text, rest)) == LineOf(text)) <==> !RunsOn(text)
  {
    forall rest: seq<char> | !RunsOn(text) ensures LineOf(Terminated(text, rest)) == LineOf(text) {
      UnterminatedLine(text, rest);
    }
    if RunsOn(text) {
      UnterminatedLine(text, []);
      UnterminatedLine(text, "0");
      var (v, end) := Leading(text, 0, 0);
      var stored := ParsedFrom(text, end + 1, 0, []).stored;
      OneMoreDigit(stored);
      assert LineOf(Terminated(text, [])) != LineOf(Terminated(text, "0"));
    }
  }

  lemma OneMoreDigit(stored: seq<Slot>)
    requires |stored| < BUFFER
    ensures ParsedFrom([], 0, 0, stored).stored == stored && ParsedFrom("0", 0, 0, stored).stored == stored + [0]
  {
    assert TextAt("0", 0, "0");
    NumberRead("0", 0, 0, "0", stored);
    assert ValueAfter(0, "0") == ValueAfter(0, "0"[1..]) == 0;
  }

  lemma {:induction false} NumberStops(mem: seq<char>, p: nat, k: nat, digits: string, used: nat)
    requires TextAt(mem, p, digits) && digits != [] && forall i :: 0 <= i < |digits| ==> IsDigit(digits[i])
    requires !IsDigit(CharAt(mem, p + |digits|)) && k <= 255 && used < BUFFER
    ensures var stop := StopsAt(mem, p, k, used);
      if ValueAfter(k, digits) > 255 then stop < p + |digits|
      else stop == if used == BUFFER - 1 then p + |digits| else StopsAt(mem, p + |digits| + 1, 0, used + 1)
    decreases |digits|
  {
    assert mem[p] == digits[0];
    assert digits == [digits[0]] + digits[1..];
    TextSplit(mem, p, [digits[0]], digits[1..]);
    var n := k * 10 + DigitValue(digits[0]);
    ValueAfterGrows(n, digits[1..]);
    if |digits| == 1 {
      assert ValueAfter(n, digits[1..]) == n;
    } else {
      assert mem[p + 1] == digits[1..][0];
      if n <= 255 {
        NumberStops(mem, p + 1, n, digits[1..], used);
      }
    }
  }

  lemma NextStops(mem: seq<char>, p: nat, numbers: seq<nat>, used: nat) returns (q: nat)
    requires |numbers| > 1 && TextAt(mem, p, Listed(numbers)) && |mem| == p + |Listed(numbers)| && used < BUFFER
    ensures TextAt(mem, q, Listed(numbers[1..])) && |mem| == q + |Listed(numbers[1..])|
    ensures var stop := StopsAt(mem, p, 0, used);
      if numbers[0] > 255 || used == BUFFER - 1 then stop < |mem| else stop == StopsAt(mem, q, 0, used + 1)
  {
    var digits := Decimal(numbers[0]);
    q := p + |digits| + 1;
    ValueOfDecimal(numbers[0]);
    assert Listed(numbers) == digits + ([','] + Listed(numbers[1..]));
    TextParts(mem, p, digits, ',', Listed(numbers[1..]));
    NumberStops(mem, p, 0, digits, used);
  }

  lemma OnlyStops(mem: seq<char>, p: nat, numbers: seq<nat>, used: nat)
    requires |numbers| == 1 && TextAt(mem, p, Listed(numbers)) && |mem| == p + |Listed(numbers)| && used < BUFFER
    ensures StopsAt(mem, p, 0, used) > |mem| <==> numbers[0] <= 255 && used < BUFFER - 1
  {
    ValueOfDecimal(numbers[0]);
    NumberStops(mem, p, 0, Decimal(numbers[0]), used);
  }

  lemma {:induction false} ListStopsIff(mem: seq<char>, p: nat, numbers: seq<nat>, used: nat)
    requires numbers != [] && TextAt(mem, p, Listed(numbers)) && |mem| == p + |Listed(numbers)| && used < BUFFER
    ensures StopsAt(mem, p, 0, used) > |mem| <==> AllBytes(Fitting(numbers, used)) && used + |numbers| < BUFFER
    decreases |numbers|
  {
    FittingNext(numbers, used);
    AllBytesNext(numbers[0], Fitting(numbers[1..], used + 1));
    if |numbers| == 1 {
      OnlyStops(mem, p, numbers, used);
    } else {
      var q := NextStops(mem, p, numbers, used);
      if used < BUFFER - 1 {
        ListStopsIff(mem, q, numbers[1..], used + 1);
      }
    }
  }

  lemma AllBytesNext(n: nat, rest: seq<nat>)
    ensures AllBytes([n] + rest) <==> n <= 255 && AllBytes(rest)
  {
    if AllBytes([n] + rest) {
      assert ([n] + rest)[0] == n;
      forall i | 0 <= i < |rest| ensures rest[i] <= 255 {
        assert ([n] + rest)[i + 1] == rest[i];
      }
    }
  }

  /** A printed line that lacks its newline runs on exactly if it is not rejected and has fewer than 64 entries. */
  lemma PrintedRunsOnIff(v: nat, numbers: seq<nat>)
    requires numbers != []
    ensures RunsOn(Decimal(v) + ([' '] + Listed(numbers))) <==> v <= 255 && AllBytes(numbers) && |numbers| < BUFFER
  {
    var text := Decimal(v) + ([' '] + Listed(numbers));
    assert text[0..|text|] == text;
    HeadOfLine(text, v, Listed(numbers));
    ListStopsIff(text, |Decimal(v)| + 1, numbers, 0);
    assert |numbers| < BUFFER ==> Fitting(numbers, 0) == numbers;
  }

  /** The line buffer after a shorter line has been read into it. */
  function Overlaid(buffer: seq<char>, line: seq<char>): seq<char>
    requires |line| < |buffer|
  {
    line + ['\0'] + buffer[|line| + 1..]
  }

  /** A file that ends without a newline: its last line takes over the 20 of the line before. */
  lemma RunsOnExample()
    ensures LineOf(Overlaid("5 1,20\n\0", "6 7")) == List(6, Serial([7, 20], 2))
  {
    var text, rest := "6 7", "20\n\0";
    assert Overlaid("5 1,20\n\0", text) == Terminated(text, rest);
    UnterminatedLine(text, rest);
    assert Leading(text, 1, 6) == (6, 1);
    assert [] + [7] == [7] && [7] + [20] == [7, 20];
    assert ParsedFrom(text, 4, 0, [7]) == Serial([7], 1);
    assert StopsAt(text, 4, 0, 1) == 4;
    assert ParsedFrom(rest, 3, 0, [7, 20]) == Serial([7, 20], 2);
    assert ParsedFrom(rest, 1, 2, [7]) == Serial([7, 20], 2);
  }

  /** A list gives its value a new buffer even when it is rejected, but a length only if it is not. */
  function AfterLine(t: Table, line: Line): Table {
    if !line.List? then t
    else
      Table(t.data[line.value := line.outcome.stored],
            if line.outcome.Serial? then t.lengths[line.value := line.outcome.length] else t.lengths)
  }

  function After(t: Table, lines: seq<seq<char>>): Table {
    if lines == [] then t else AfterLine(After(t, lines[..|lines| - 1]), LineOf(lines[|lines| - 1]))
  }

  /** The lines of a file that are parsed: up to the first that fails. */
  function Taken(lines: seq<seq<char>>): (taken: seq<seq<char>>)
    ensures forall i :: 0 <= i < |taken| - 1 ==> !LineOf(taken[i]).Fails()
  {
    if lines == [] then []
    else if LineOf(lines[0]).Fails() then [lines[0]]
    else [lines[0]] + Taken(lines[1..])
  }

  lemma {:induction false} TakenAppend(done: seq<seq<char>>, rest: seq<seq<char>>)
    requires forall i :: 0 <= i < |done| ==> !LineOf(done[i]).Fails()
    ensures Taken(done + rest) == done + Taken(rest)
  {
    if done == [] {
      assert done + rest == rest;
    } else {
      assert (done + rest)[1..] == done[1..] + rest;
      TakenAppend(done[1..], rest);
    }
  }

  lemma AfterNext(t: Table, done: seq<seq<char>>, line: seq<char>)
    ensures After(t, done + [line]) == AfterLine(After(t, done), LineOf(line))
  {
    assert (done + [line])[..|done|] == done;
  }

  /** Part of the way through a file: these lines have been parsed, none of them failed, and the rest is left. */
  ghost predicate ReadUpTo(t: Table, all: seq<seq<char>>, done: seq<seq<char>>, rest: seq<seq<char>>, now: Table) {
    && done + rest == all && now == After(t, done)
    && forall i :: 0 <= i < |done| ==> !LineOf(done[i]).Fails()
  }

  lemma ReadOn(t: Table, all: seq<seq<char>>, done: seq<seq<char>>, rest: seq<seq<char>>, now: Table)
    requires ReadUpTo(t, all, done, rest, now) && rest != []
    ensures var next := AfterLine(now, LineOf(rest[0]));
      if LineOf(rest[0]).Fails() then next == After(t, Taken(all))
      else ReadUpTo(t, all, done + [rest[0]], rest[1..], next)
  {
    AfterNext(t, done, rest[0]);
    TakenAppend(done, rest);
    assert rest == [rest[0]] + rest[1..];
  }

  lemma ReadAll(t: Table, all: seq<seq<char>>, done: seq<seq<char>>, now: Table)
    requires ReadUpTo(t, all, done, [], now)
    ensures now == After(t, Taken(all))
  {
    TakenAppend(done, []);
    assert done + Taken([]) == done;
  }

  /** The length the last of the lines that record one has recorded for a value. */
  function LastRecorded(t: Table, lines: seq<seq<char>>, v: nat): nat {
    if lines == [] then t.Length(v)
    else
      var last := LineOf(lines[|lines| - 1]);
      if last.Records(v) then last.outcome.length else LastRecorded(t, lines[..|lines| - 1], v)
  }

  lemma {:induction false} LengthIsLastRecorded(t: Table, lines: seq<seq<char>>, v: nat)
    ensures After(t, lines).Length(v) == LastRecorded(t, lines, v)
  {
    if lines != [] {
      LengthIsLastRecorded(t, lines[..|lines| - 1], v);
    }
  }

  /** The bytes the last of the lines that are a list for a value has given it, whether or not it was rejected. */
  function LastGiven(t: Table, lines: seq<seq<char>>, v: nat): Option<seq<Slot>> {
    if lines == [] then (if v in t.data then Some(t.data[v]) else None)
    else
      var last := LineOf(lines[|lines| - 1]);
      if last.List? && last.value == v then Some(last.outcome.stored) else LastGiven(t, lines[..|lines| - 1], v)
  }

  lemma {:induction false} BytesAreLastGiven(t: Table, lines: seq<seq<char>>, v: nat)
    ensures LastGiven(t, lines, v) == if v in After(t, lines).data then Some(After(t, lines).data[v]) else None
  {
    if lines != [] {
      BytesAreLastGiven(t, lines[..|lines| - 1], v);
    }
  }

  // ---- a file of printed lines

  /** One line of a file that is meant to be read: a value, and from 1 to 63 bytes for it. */
  datatype Entry = Entry(value: nat, bytes: seq<Slot>) {
    predicate Printable() {
      value <= 255 && 1 <= |bytes| < BUFFER
    }
  }

  /** The line buffer with this entry printed in it. */
  ghost predicate Shows(mem: seq<char>, e: Entry) {
    e.Printable() && TextAt(mem, 0, PrintedLine(e.value, e.bytes) + "\0")
  }

  lemma ShownIsRead(mem: seq<char>, e: Entry)
    requires Shows(mem, e)
    ensures LineOf(mem) == List(e.value, Serial(e.bytes, |e.bytes|))
  {
    LineRoundTrip(mem, e.value, e.bytes);
    assert Accepted(e.bytes) == e.bytes;
    assert [] + Accepted(e.bytes) == e.bytes;
  }

  /** The bytes of the last entry for a value. */
  function LastEntry(entries: seq<Entry>, v: nat): Option<seq<Slot>> {
    if entries == [] then None
    else
      var last := entries[|entries| - 1];
      if last.value == v then Some(last.bytes) else LastEntry(entries[..|entries| - 1], v)
  }

  lemma {:induction false} AllTaken(lines: seq<seq<char>>)
    requires forall i :: 0 <= i < |lines| ==> !LineOf(lines[i]).Fails()
    ensures Taken(lines) == lines
  {
    TakenAppend(lines, []);
    assert lines + [] == lines && lines + Taken([]) == lines;
  }

  lemma {:induction false} EntriesRead(entries: seq<Entry>, lines: seq<seq<char>>, v: nat)
    requires |lines| == |entries| && forall i :: 0 <= i < |lines| ==> Shows(lines[i], entries[i])
    ensures var t := After(Table(map[], map[]), lines);
      match LastEntry(entries, v)
      case None => v !in t.data && t.Length(v) == 0
      case Some(bytes) => v in t.data && t.data[v] == bytes && t.Length(v) == |bytes|
  {
    if entries != [] {
      var n := |entries| - 1;
      EntriesRead(entries[..n], lines[..n], v);
      ShownIsRead(lines[n], entries[n]);
    }
  }

  /** Writing and reading a whole file: whatever entries it was printed from, what is read for each value is the
      bytes of its last entry, with their number as the length, and nothing where it has none. */
  lemma FileRoundTrip(entries: seq<Entry>, lines: seq<seq<char>>, v: nat)
    requires |lines| == |entries| && forall i :: 0 <= i < |lines| ==> Shows(lines[i], entries[i])
    ensures var t := After(Table(map[], map[]), Taken(lines));
      match LastEntry(entries, v)
      case None => v !in t.data && t.Length(v) == 0
      case Some(bytes) => v in t.data && t.data[v] == bytes && t.Length(v) == |bytes|
  {
    forall i | 0 <= i < |lines| ensures !LineOf(lines[i]).Fails() {
      ShownIsRead(lines[i], entries[i]);
    }
    AllTaken(lines);
    EntriesRead(entries, lines, v);
  }

  lemma {:induction false} StaysFilled(t: Table, lines: seq<seq<char>>)
    requires t.Filled() && forall i :: 0 <= i < |lines| ==> !LineOf(lines[i]).Fails()
    ensures After(t, lines).Filled()
  {
    if lines != [] {
      StaysFilled(t, lines[..|lines| - 1]);
    }
  }

  /** The last line parsed failed inside the list of a value for which an earlier line had recorded more
      numbers than this one stored. */
  predicate CutShort(t: Table, lines: seq<seq<char>>) {
    var taken := Taken(lines);
    taken != [] &&
    var front, last := taken[..|taken| - 1], LineOf(taken[|taken| - 1]);
    last.List? && last.outcome.Failed? && LastRecorded(t, front, last.value) > |last.outcome.stored|
  }

  /** After a file has been parsed every recorded length lies within the bytes written, unless the file was
      cut short in this way. */
  lemma FilledIff(t: Table, lines: seq<seq<char>>)
    requires t.Filled()
    ensures After(t, Taken(lines)).Filled() <==> !CutShort(t, lines)
  {
    var taken := Taken(lines);
    if taken != [] {
      var front, last := taken[..|taken| - 1], LineOf(taken[|taken| - 1]);
      StaysFilled(t, front);
      if last.List? {
        LengthIsLastRecorded(t, front, last.value);
        assert last.value in After(t, taken).data;
      }
    }
  }

  /** Such a file: the second line gives the value a buffer with one byte in it, and its length stays 3. */
  lemma CutShortExample(first: seq<char>, second: seq<char>)
    requires TextAt(first, 0, PrintedLine(5, [1, 2, 3]) + "\0") && TextAt(second, 0, PrintedLine(5, [1, 300]) + "\0")
    ensures var t := After(Table(map[], map[]), Taken([first, second]));
      5 in t.data && t.data[5] == [1] && t.Length(5) == 3 && CutShort(Table(map[], map[]), [first, second])
  {
    LineRoundTrip(first, 5, [1, 2, 3]);
    LineRoundTrip(second, 5, [1, 300]);
  }

  /** A recorded length never reaches beyond the buffer itself. */
  lemma {:induction false} LengthsFitBuffer(t: Table, lines: seq<seq<char>>, v: nat)
    requires t.Length(v) < BUFFER
    ensures After(t, lines).Length(v) < BUFFER
  {
    if lines != [] {
      LengthsFitBuffer(t, lines[..|lines| - 1], v);
    }
  }

  class DmxSerialChannelData {
    var data: map<nat, seq<Slot>>
    var lengths: map<nat, nat>
    /** What is left to read: the buffer as each further call of fgets leaves it. */
    var file: seq<seq<char>>

    ghost function Contents(): Table
      reads this
    {
      Table(data, lengths)
    }

    constructor ()
      ensures Contents() == Table(map[], map[]) && Contents().Filled()
    {
      data := map[];
      lengths := map[];
      file := [];
    }

    /** Parses the file, if it can be opened, up to its end or the first line that fails. */
    method Parse(contents: Option<seq<seq<char>>>) returns (parsed: bool)
      modifies this
      ensures parsed == contents.Some?
      ensures Contents() == if parsed then After(old(Contents()), Taken(contents.value)) else old(Contents())
    {
      if contents.None? {
        return false;
      }
      file := contents.value;
      ghost var done: seq<seq<char>> := [];
      var code := NONE;
      while code != EOFILE
        invariant ReadUpTo(old(Contents()), contents.value, done, file, Contents())
        invariant code == EOFILE ==> file == []
        decreases |file|, code != EOFILE
      {
        ghost var rest, now := file, Contents();
        code := GetNextLine();
        if rest != [] {
          ReadOn(old(Contents()), contents.value, done, rest, now);
          done := done + [rest[0]];
        }
        if code == FAILED {
          return true;
        }
      }
      ReadAll(old(Contents()), contents.value, done, Contents());
      return true;
    }

    method GetNextLine() returns (code: Code)
      modifies this
      ensures old(file) == [] ==> code == EOFILE && file == [] && Contents() == old(Contents())
      ensures old(file) != [] ==>
        && file == old(file)[1..] && Contents() == AfterLine(old(Contents()), LineOf(old(file)[0]))
        && code == LineOf(old(file)[0]).Code()
    {
      if file == [] {
        return EOFILE;
      }
      var buffer := file[0];
      file := file[1..];
      if IsDigit(CharAt(buffer, 0)) {
        code := ParseLine(buffer);
        return;
      }
      return NONE;
    }

    method ParseLine(mem: seq<char>) returns (code: Code)
      modifies this
      ensures Contents() == AfterLine(old(Contents()), DigitLine(mem)) && code == DigitLine(mem).Code()
      ensures file == old(file)
    {
      var p, k: nat := 0, 0;
      while IsDigit(CharAt(mem, p))
        invariant Leading(mem, p, k) == Leading(mem, 0, 0)
        decreases |mem| - p
      {
        k := k * 10 + DigitValue(mem[p]);
        p := p + 1;
      }
      if k > 255 {
        return FAILED;
      }
      if CharAt(mem, p) == ' ' {
        data := data[k := []];
        code := ParseSerialData(mem, p + 1, k);
        return;
      }
      return FAILED;
    }

    method ParseSerialData(mem: seq<char>, start: nat, v: nat) returns (code: Code)
      requires v in data && data[v] == []
      modifies this
      ensures var outcome := ParsedFrom(mem, start, 0, []);
        && Contents() == AfterLine(old(Contents()), List(v, outcome))
        && code == if outcome.Failed? then FAILED else SERIAL
      ensures file == old(file)
    {
      var p, k: nat, length := start, 0, 0;
      while IsDigit(CharAt(mem, p))
        invariant v in data && data == old(data)[v := data[v]] && lengths == old(lengths) && file == old(file)
        invariant k <= 255 && length == |data[v]| < BUFFER
        invariant ParsedFrom(mem, p, k, data[v]) == ParsedFrom(mem, start, 0, [])
        decreases |mem| - p
      {
        k := k * 10 + DigitValue(mem[p]);
        if k > 255 {
          return FAILED;
        }
        p := p + 1;
        if CharAt(mem, p) == ',' || !IsDigit(CharAt(mem, p)) {
          data := data[v := data[v] + [k]];
          if length == BUFFER - 1 {
            break;
          }
          k := 0;
          length := length + 1;
          p := p + 1;
        }
      }
      lengths := lengths[v := length];
      return SERIAL;
    }

    /** What to send for a value: a buffer, and how much of it. */
    method GetData(v: nat) returns (buffer: Option<seq<Slot>>, length: nat)
      ensures buffer == if v in data then Some(data[v]) else None
      ensures length == if v in data then Contents().Length(v) else 0
    {
      if v in data {
        return Some(data[v]), if v in lengths then lengths[v] else 0;
      }
      return None, 0;
    }
  }
}
