/** Numbers of 16 bits, and what becomes of numbers that do not fit. */
module Words {
  const WORD_SIZE := 0x1_0000

  type Word = x: int | 0 <= x < WORD_SIZE

  /** A number cut to 16 bits. */
  function Wrapped(x: int): (w: Word)
    ensures 0 <= x < WORD_SIZE ==> w == x
  {
    x % WORD_SIZE
  }

  /** The same for numbers at most one turn away. */
  function Turned(x: int): Word
    requires -WORD_SIZE <= x < 2 * WORD_SIZE
  {
    if x < 0 then x + WORD_SIZE else if x < WORD_SIZE then x else x - WORD_SIZE
  }

  lemma TurnedIsWrapped(x: int)
    requires -WORD_SIZE <= x < 2 * WORD_SIZE
    ensures Turned(x) == Wrapped(x)
  {
  }

  lemma WrappedSum(x: int, y: int)
    ensures Wrapped(Wrapped(x) + y) == Wrapped(x + y)
  {
    var turns := x / WORD_SIZE;
    assert Wrapped(x) == x - turns * WORD_SIZE;
    WholeTurns(x + y, turns);
  }

  lemma WholeTurns(x: int, turns: int)
    ensures Wrapped(x - turns * WORD_SIZE) == Wrapped(x)
  {
  }

  /** A difference of numbers taken as 32 bits without sign. */
  function Unsigned(x: int): int
    requires -0x1_0000_0000 <= x
  {
    if x < 0 then x + 0x1_0000_0000 else x
  }
}
