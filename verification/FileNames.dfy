/** Channel files are named chlNNN.txt; the number is the DMX channel. */
module FileNames {
  import opened FileIndex
  import opened Text

  const PREFIX: string := "chl"
  const SUFFIX: string := ".txt"
  const NAME_LENGTH: nat := 10
  const MIN_NUMBER: nat := 1

  /** The name of a channel's file, for the numbers 1 to 512. */
  function FileNameCopyTo(number: int): Option<string> {
    if MIN_NUMBER <= number <= MAX_NUMBER then
      Some(PREFIX + [DigitChar(number / 100), DigitChar(number / 10 % 10), DigitChar(number % 10)] + SUFFIX)
    else None
  }

  /** The channel of a file name, built up digit by digit. */
  method CheckFileName(name: string) returns (number: Option<int>)
    ensures number == NumberOf(name)
  {
    if |name| != NAME_LENGTH {
      return None;
    }
    if name[..3] != PREFIX || name[NAME_LENGTH - 4..] != SUFFIX {
      return None;
    }
    if !IsDigit(name[3]) {
      return None;
    }
    var n := 100 * DigitValue(name[3]);
    if n > MAX_NUMBER {
      return None;
    }
    if !IsDigit(name[4]) {
      return None;
    }
    n := n + 10 * DigitValue(name[4]);
    if !IsDigit(name[5]) {
      return None;
    }
    n := n + DigitValue(name[5]);
    if n > MAX_NUMBER {
      return None;
    }
    return Some(n);
  }

  function NumberOf(name: string): Option<int> {
    if |name| == NAME_LENGTH && name[..3] == PREFIX && name[6..] == SUFFIX && (forall i :: 3 <= i < 6 ==> IsDigit(name[i])) then
      var n := 100 * DigitValue(name[3]) + 10 * DigitValue(name[4]) + DigitValue(name[5]);
      if n <= MAX_NUMBER then Some(n) else None
    else None
  }

  /** A generated name is accepted and gives its number back. */
  lemma NameOfNumber(number: int)
    requires MIN_NUMBER <= number <= MAX_NUMBER
    ensures FileNameCopyTo(number).Some? && NumberOf(FileNameCopyTo(number).value) == Some(number)
  {
    DecimalDigits(number);
    GeneratedName(number / 100, number / 10 % 10, number % 10);
  }

  lemma DecimalDigits(number: int)
    requires 0 <= number < 1000
    ensures 0 <= number / 100 < 10 && 0 <= number / 10 % 10 < 10 && 0 <= number % 10 < 10
    ensures number == 100 * (number / 100) + 10 * (number / 10 % 10) + number % 10
  {
  }

  lemma GeneratedName(h: nat, t: nat, u: nat)
    requires h < 10 && t < 10 && u < 10 && 100 * h + 10 * t + u <= MAX_NUMBER
    ensures NumberOf(PREFIX + [DigitChar(h), DigitChar(t), DigitChar(u)] + SUFFIX) == Some(100 * h + 10 * t + u)
  {
    var name := PREFIX + [DigitChar(h), DigitChar(t), DigitChar(u)] + SUFFIX;
    assert name[..3] == PREFIX && name[6..] == SUFFIX;
    assert name[3] == DigitChar(h) && name[4] == DigitChar(t) && name[5] == DigitChar(u);
  }

  /** An accepted name is the generated one of its number, except for chl000.txt, which is
      accepted although no file can be generated for channel 0. */
  lemma NumberOfName(name: string)
    requires NumberOf(name).Some?
    ensures FileNameCopyTo(NumberOf(name).value) == Some(name) <==> name != "chl000.txt"
  {
    var n := NumberOf(name).value;
    Digits(DigitValue(name[3]), DigitValue(name[4]), DigitValue(name[5]));
    assert name == PREFIX + name[3..6] + SUFFIX;
    if n == 0 {
      assert name[3..6] == "000";
      assert name == "chl000.txt";
    } else {
      assert name[3..6] == [DigitChar(n / 100), DigitChar(n / 10 % 10), DigitChar(n % 10)];
      assert "chl000.txt"[3] == '0' && "chl000.txt"[4] == '0' && "chl000.txt"[5] == '0';
    }
  }

  lemma Digits(h: int, t: int, u: int)
    requires 0 <= h < 10 && 0 <= t < 10 && 0 <= u < 10
    ensures var n := 100 * h + 10 * t + u; n / 100 == h && n / 10 % 10 == t && n % 10 == u
  {
  }
}
