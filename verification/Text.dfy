/** What the parsers share: text in memory, and decimal digits. */
module Text {
  datatype Option<T> = None | Some(value: T)

  /** A buffer holds the text, its terminating NUL and whatever was behind it. */
  function CharAt(mem: seq<char>, i: nat): char {
    if i < |mem| then mem[i] else '\0'
  }

  predicate IsDigit(c: char) {
    '0' <= c <= '9'
  }

  function DigitValue(c: char): int {
    c as int - '0' as int
  }

  function DigitChar(d: nat): char
    requires d < 10
  {
    ('0' as int + d) as char
  }
}
