/** A row of 8x8 LED modules on one SPI chain, and the driver that shows text on it. */
module Max7219Matrix {
  import opened Glyph

  const SPI_DATA_SIZE: nat := 64
  const NOOP: bv8 := 0x00
  const SPACE: nat := 32

  /** The address of digit register i, counted from 1. */
  function DigitRegister(i: nat): bv8
    requires 1 <= i <= 8
  {
    if i <= 4 then (if i == 1 then 1 else if i == 2 then 2 else if i == 3 then 3 else 4)
    else (if i == 5 then 5 else if i == 6 then 6 else if i == 7 then 7 else 8)
  }

  // ---- the modules

  /** The digit register an address byte selects, counted from 0; eight for any other register. */
  function DigitIndex(register: bv8): (d: nat)
    ensures d <= 8
  {
    if register == 1 then 0 else if register == 2 then 1 else if register == 3 then 2
    else if register == 4 then 3 else if register == 5 then 4 else if register == 6 then 5
    else if register == 7 then 6 else if register == 8 then 7 else 8
  }

  /** What a module does with the word in its shift register when the chip select is released. */
  function Latched(digits: Rows, register: bv8, data: bv8): Rows {
    if DigitIndex(register) < 8 then digits[DigitIndex(register) := data] else digits
  }

  /** The bytes in the shift registers, the one that came in last first. */
  function Shifted(registers: seq<bv8>, bytes: seq<bv8>): (r: seq<bv8>)
    ensures |r| == |registers|
    decreases |bytes|
  {
    if bytes == [] || registers == [] then registers
    else Shifted([bytes[0]] + registers[..|registers| - 1], bytes[1..])
  }

  /** Pushing as many bytes as the registers hold leaves them there in reverse order. */
  lemma {:induction false} ShiftedAt(registers: seq<bv8>, bytes: seq<bv8>, p: nat)
    requires p < |registers|
    ensures Shifted(registers, bytes)[p]
         == if p < |bytes| then bytes[|bytes| - 1 - p] else registers[p - |bytes|]
    decreases |bytes|
  {
    if bytes != [] {
      ShiftedAt([bytes[0]] + registers[..|registers| - 1], bytes[1..], p);
    }
  }

  lemma {:induction false} ShiftedAppend(registers: seq<bv8>, bytes: seq<bv8>, b: bv8)
    requires registers != []
    ensures Shifted(registers, bytes + [b])
         == [b] + Shifted(registers, bytes)[..|registers| - 1]
    decreases |bytes|
  {
    if bytes == [] {
      assert (bytes + [b])[1..] == [];
    } else {
      assert (bytes + [b])[1..] == bytes[1..] + [b];
      ShiftedAppend([bytes[0]] + registers[..|registers| - 1], bytes[1..], b);
    }
  }

  /** A word for each module: the register it addresses and the data for it. */
  datatype Word = Word(register: bv8, data: bv8)

  function LatchedWords(digits: seq<Rows>, words: seq<Word>): (d: seq<Rows>)
    requires |words| == |digits|
    ensures |d| == |digits|
  {
    seq(|digits|, k requires 0 <= k < |digits| => Latched(digits[k], words[k].register, words[k].data))
  }

  /** The words in the shift registers, the data byte in front of the address byte. */
  function WordsIn(registers: seq<bv8>, count: nat): (w: seq<Word>)
    requires |registers| == 2 * count
    ensures |w| == count
  {
    seq(count, k requires 0 <= k < count => Word(registers[2 * k + 1], registers[2 * k]))
  }

  /** The words of a frame, the last one first. */
  function WordsOf(frame: seq<bv8>, count: nat): (w: seq<Word>)
    requires |frame| == 2 * count
    ensures |w| == count
  {
    seq(count, k requires 0 <= k < count => Word(frame[|frame| - 2 - 2 * k], frame[|frame| - 1 - 2 * k]))
  }

  /** Every module latches the word in its own register. */
  function LatchedAll(digits: seq<Rows>, registers: seq<bv8>): (d: seq<Rows>)
    requires |registers| == 2 * |digits|
    ensures |d| == |digits|
  {
    LatchedWords(digits, WordsIn(registers, |digits|))
  }

  /** What a frame does: module k gets the k-th word from the end. */
  function AfterFrame(digits: seq<Rows>, frame: seq<bv8>): (d: seq<Rows>)
    requires |frame| == 2 * |digits|
    ensures |d| == |digits|
  {
    LatchedWords(digits, WordsOf(frame, |digits|))
  }

  lemma WordInPlace(registers: seq<bv8>, frame: seq<bv8>, k: nat)
    requires |frame| == |registers| && 2 * k + 1 < |registers|
    ensures Shifted(registers, frame)[2 * k] == frame[|frame| - 1 - 2 * k]
    ensures Shifted(registers, frame)[2 * k + 1] == frame[|frame| - 2 - 2 * k]
  {
    ShiftedAt(registers, frame, 2 * k);
    ShiftedAt(registers, frame, 2 * k + 1);
  }

  lemma WordsArrive(registers: seq<bv8>, frame: seq<bv8>, count: nat)
    requires |frame| == |registers| == 2 * count
    ensures WordsIn(Shifted(registers, frame), count) == WordsOf(frame, count)
  {
    forall k | 0 <= k < count
      ensures WordsIn(Shifted(registers, frame), count)[k] == WordsOf(frame, count)[k]
    {
      WordInPlace(registers, frame, k);
    }
  }

  lemma FrameArrives(digits: seq<Rows>, registers: seq<bv8>, frame: seq<bv8>)
    requires |frame| == |registers| == 2 * |digits|
    ensures LatchedAll(digits, Shifted(registers, frame)) == AfterFrame(digits, frame)
  {
    WordsArrive(registers, frame, |digits|);
  }

  class Chain {
    const count: nat
    var registers: seq<bv8>
    var digits: seq<Rows>

    ghost predicate Valid()
      reads this
    {
      |registers| == 2 * count && |digits| == count
    }

    constructor (count: nat)
      ensures this.count == count && Valid()
    {
      this.count := count;
      registers := seq(2 * count, _ => 0);
      digits := seq(count, _ => [0, 0, 0, 0, 0, 0, 0, 0]);
    }

    method ShiftIn(bytes: array<bv8>, length: nat)
      requires Valid() && length <= bytes.Length
      modifies this`registers
      ensures Valid() && registers == Shifted(old(registers), bytes[..length])
    {
      ghost var before := registers;
      for i := 0 to length
        invariant Valid() && registers == Shifted(before, bytes[..i])
      {
        assert bytes[..i + 1] == bytes[..i] + [bytes[i]];
        if registers != [] {
          ShiftedAppend(before, bytes[..i], bytes[i]);
          registers := [bytes[i]] + registers[..|registers| - 1];
        }
      }
    }

    method Latch()
      requires Valid()
      modifies this`digits
      ensures Valid() && digits == LatchedAll(old(digits), registers)
    {
      for k := 0 to count
        invariant |digits| == count
        invariant forall q :: 0 <= q < k ==> digits[q] == LatchedAll(old(digits), registers)[q]
        invariant forall q :: k <= q < count ==> digits[q] == old(digits)[q]
      {
        digits := digits[k := Latched(digits[k], registers[2 * k + 1], registers[2 * k])];
      }
    }

    /** One chip select period. */
    method Write(bytes: array<bv8>, length: nat)
      requires Valid() && length == 2 * count && length <= bytes.Length
      modifies this
      ensures Valid()
      ensures digits == AfterFrame(old(digits), bytes[..length])
    {
      FrameArrives(digits, registers, bytes[..length]);
      ShiftIn(bytes, length);
      Latch();
    }
  }

  // ---- the text

  type Code = x: int | 0 <= x < 256

  function Shown(c: Code, fontSize: nat): nat {
    if c >= fontSize then SPACE else c
  }

  function GlyphAt(font: seq<bv8>, c: nat): Rows
    requires 8 * c + 8 <= |font|
  {
    font[8 * c..8 * c + 8]
  }

  function Min(a: nat, b: nat): nat {
    if a < b then a else b
  }

  /** A module once the first i digit registers of its character have been sent. */
  function Mixed(was: Rows, glyph: Rows, i: nat): Rows
    requires i <= 8
  {
    glyph[..i] + was[i..]
  }

  /** The modules once the first i digit registers of each character have been sent. */
  function Partly(digits: seq<Rows>, glyphs: seq<Rows>, i: nat): (d: seq<Rows>)
    requires |glyphs| <= |digits| && i <= 8
    ensures |d| == |digits|
  {
    seq(|digits|, k requires 0 <= k < |digits| =>
      if k < |glyphs| then Mixed(digits[k], glyphs[k], i) else digits[k])
  }

  /** The modules showing `glyphs`, the rest as they were. */
  function Showing(digits: seq<Rows>, glyphs: seq<Rows>): seq<Rows>
    requires |glyphs| <= |digits|
  {
    glyphs + digits[|glyphs|..]
  }

  /** One frame: no-operations for the far modules, then row i of the characters, the last one first. */
  function Frame(count: nat, glyphs: seq<Rows>, i: nat): (f: seq<bv8>)
    requires |glyphs| <= count && 1 <= i <= 8
    ensures |f| == 2 * count
  {
    NoOps(count - |glyphs|) + Words(glyphs, |glyphs|, i)
  }

  function NoOps(n: nat): (f: seq<bv8>)
    ensures |f| == 2 * n
    ensures forall p :: 0 <= p < 2 * n ==> f[p] == 0
  {
    if n == 0 then [] else NoOps(n - 1) + [NOOP, 0]
  }

  /** The words for characters |glyphs| - 1 down to |glyphs| - m. */
  function Words(glyphs: seq<Rows>, m: nat, i: nat): (f: seq<bv8>)
    requires m <= |glyphs| && 1 <= i <= 8
    ensures |f| == 2 * m
  {
    if m == 0 then []
    else Words(glyphs, m - 1, i) + [DigitRegister(i), glyphs[|glyphs| - m][i - 1]]
  }

  lemma WordsStep(front: seq<bv8>, glyphs: seq<Rows>, m: nat, i: nat)
    requires 0 < m <= |glyphs| && 1 <= i <= 8
    ensures front + Words(glyphs, m, i)
         == (front + Words(glyphs, m - 1, i)) + [DigitRegister(i), glyphs[|glyphs| - m][i - 1]]
  {
  }

  lemma {:induction false} WordsAt(glyphs: seq<Rows>, m: nat, i: nat, k: nat)
    requires |glyphs| - m <= k < |glyphs| && m <= |glyphs| && 1 <= i <= 8
    ensures var at := 2 * (|glyphs| - 1 - k);
            Words(glyphs, m, i)[at] == DigitRegister(i) && Words(glyphs, m, i)[at + 1] == glyphs[k][i - 1]
  {
    if k > |glyphs| - m {
      WordsAt(glyphs, m - 1, i, k);
    }
  }

  /** The word that a frame holds for module k. */
  lemma FrameAt(count: nat, glyphs: seq<Rows>, i: nat, k: nat)
    requires |glyphs| <= count && 1 <= i <= 8 && k < count
    ensures var at := 2 * count - 2 - 2 * k;
            if k < |glyphs| then
              Frame(count, glyphs, i)[at] == DigitRegister(i) && Frame(count, glyphs, i)[at + 1] == glyphs[k][i - 1]
            else Frame(count, glyphs, i)[at] == NOOP
  {
    if k < |glyphs| {
      WordsAt(glyphs, |glyphs|, i, k);
    }
  }

  /** A frame with the right word for every module. */
  ghost predicate Addresses(frame: seq<bv8>, count: nat, glyphs: seq<Rows>, i: nat)
    requires |glyphs| <= count && 1 <= i <= 8 && |frame| == 2 * count
  {
    forall k :: 0 <= k < count ==> WordFor(frame[2 * count - 2 - 2 * k], frame[2 * count - 1 - 2 * k], glyphs, i, k)
  }

  ghost predicate WordFor(register: bv8, data: bv8, glyphs: seq<Rows>, i: nat, k: nat)
    requires 1 <= i <= 8
  {
    if k < |glyphs| then register == DigitRegister(i) && data == glyphs[k][i - 1] else register == NOOP
  }

  lemma FrameAddresses(count: nat, glyphs: seq<Rows>, i: nat)
    requires |glyphs| <= count && 1 <= i <= 8
    ensures Addresses(Frame(count, glyphs, i), count, glyphs, i)
  {
    forall k | 0 <= k < count
      ensures WordFor(Frame(count, glyphs, i)[2 * count - 2 - 2 * k], Frame(count, glyphs, i)[2 * count - 1 - 2 * k],
        glyphs, i, k)
    {
      FrameAt(count, glyphs, i, k);
    }
  }

  lemma WordAdvances(was: Rows, glyphs: seq<Rows>, i: nat, k: nat, register: bv8, data: bv8)
    requires 1 <= i <= 8 && WordFor(register, data, glyphs, i, k)
    ensures if k < |glyphs|
            then Latched(Mixed(was, glyphs[k], i - 1), register, data) == Mixed(was, glyphs[k], i)
            else Latched(was, register, data) == was
  {
  }

  /** The chain routes the words of a frame to the modules their characters belong to. */
  lemma FrameAdvances(digits: seq<Rows>, glyphs: seq<Rows>, i: nat, frame: seq<bv8>)
    requires |glyphs| <= |digits| && 1 <= i <= 8 && |frame| == 2 * |digits|
    requires Addresses(frame, |digits|, glyphs, i)
    ensures AfterFrame(Partly(digits, glyphs, i - 1), frame) == Partly(digits, glyphs, i)
  {
    var before := Partly(digits, glyphs, i - 1);
    forall k | 0 <= k < |digits|
      ensures AfterFrame(before, frame)[k] == Partly(digits, glyphs, i)[k]
    {
      WordAdvances(digits[k], glyphs, i, k, frame[|frame| - 2 - 2 * k], frame[|frame| - 1 - 2 * k]);
    }
  }

  lemma AllSent(digits: seq<Rows>, glyphs: seq<Rows>)
    requires |glyphs| <= |digits|
    ensures Partly(digits, glyphs, 0) == digits
    ensures Partly(digits, glyphs, 8) == Showing(digits, glyphs)
  {
    assert forall k :: 0 <= k < |digits| ==> Partly(digits, glyphs, 0)[k] == digits[k];
    assert forall k :: 0 <= k < |digits| ==> Partly(digits, glyphs, 8)[k] == Showing(digits, glyphs)[k];
  }

  /** The glyphs a text is shown with. */
  function GlyphsOf(font: seq<bv8>, fontSize: nat, text: seq<Code>): (g: seq<Rows>)
    requires SPACE < fontSize && 8 * fontSize <= |font|
    ensures |g| == |text|
  {
    seq(|text|, k requires 0 <= k < |text| => GlyphAt(font, Shown(text[k], fontSize)))
  }

  lemma GlyphRow(font: seq<bv8>, fontSize: nat, text: seq<Code>, k: nat, i: nat)
    requires SPACE < fontSize && 8 * fontSize <= |font| && k < |text| && 1 <= i <= 8
    ensures GlyphsOf(font, fontSize, text)[k][i - 1] == font[8 * Shown(text[k], fontSize) + i - 1]
  {
  }

  // ---- the font in memory: the driver's copy, and the eight bytes behind it

  /** A glyph replaced at index c. */
  function Replaced(memory: seq<bv8>, c: nat, glyph: Rows): (m: seq<bv8>)
    requires 8 * c + 8 <= |memory|
    ensures |m| == |memory|
  {
    memory[..8 * c] + glyph + memory[8 * c + 8..]
  }

  function Updated(memory: seq<bv8>, fontSize: nat, c: nat, rows: Rows): (m: seq<bv8>)
    requires |memory| == 8 * fontSize + 8
    ensures |m| == |memory|
  {
    if c > fontSize then memory else Replaced(memory, c, Turned(rows))
  }

  lemma ReplacedPointwise(memory: seq<bv8>, now: seq<bv8>, c: nat, glyph: Rows)
    requires 8 * c + 8 <= |memory| == |now|
    requires forall y :: 0 <= y < 8 ==> now[8 * c + y] == glyph[y]
    requires forall p :: 0 <= p < |memory| && !(8 * c <= p < 8 * c + 8) ==> now[p] == memory[p]
    ensures now == Replaced(memory, c, glyph)
  {
  }

  lemma ReplacedGlyphs(memory: seq<bv8>, c: nat, glyph: Rows, d: nat)
    requires 8 * c + 8 <= |memory| && 8 * d + 8 <= |memory|
    ensures GlyphAt(Replaced(memory, c, glyph), d) == if c == d then glyph else GlyphAt(memory, d)
  {
  }

  /** A character update reaches the character alone, and for every update to keep inside the font it takes
      and suffices that the character is not the one just behind it. */
  lemma UpdateStaysInFontIff(memory: seq<bv8>, fontSize: nat, c: nat)
    requires |memory| == 8 * fontSize + 8
    ensures (forall rows: Rows :: GlyphAt(Updated(memory, fontSize, c, rows), fontSize) == GlyphAt(memory, fontSize))
       <==> c != fontSize
  {
    if c < fontSize {
      forall rows: Rows
        ensures GlyphAt(Updated(memory, fontSize, c, rows), fontSize) == GlyphAt(memory, fontSize)
      {
        ReplacedGlyphs(memory, c, Turned(rows), fontSize);
      }
    } else if c == fontSize {
      var dark: Rows := [0, 0, 0, 0, 0, 0, 0, 0];
      var lit: Rows := [1, 0, 0, 0, 0, 0, 0, 0];
      TurnedApart(dark, lit);
      ReplacedGlyphs(memory, c, Turned(dark), fontSize);
      ReplacedGlyphs(memory, c, Turned(lit), fontSize);
      assert GlyphAt(Updated(memory, fontSize, c, dark), fontSize) != GlyphAt(memory, fontSize)
          || GlyphAt(Updated(memory, fontSize, c, lit), fontSize) != GlyphAt(memory, fontSize);
    }
  }

  /** The driver's copy of a font: every glyph turned. */
  ghost predicate Copied(memory: seq<bv8>, font: seq<Rows>, n: nat)
    requires n <= |font| && 8 * n <= |memory|
  {
    forall c :: 0 <= c < n ==> GlyphAt(memory, c) == Turned(font[c])
  }

  /** Updating a character with the glyph of the built-in font restores the copy, whatever was there. */
  lemma UpdateRestores(memory: seq<bv8>, font: seq<Rows>, c: nat, rows: Rows)
    requires |memory| == 8 * |font| + 8 && c < |font| && Copied(memory, font, |font|)
    ensures Copied(Updated(Updated(memory, |font|, c, rows), |font|, c, font[c]), font, |font|)
    ensures Updated(Updated(memory, |font|, c, rows), |font|, c, font[c]) == memory
  {
  }

  /** What a reader sees: the turned built-in glyph of each character, a space for one outside the font. */
  lemma TextIsReadable(memory: seq<bv8>, font: seq<Rows>, digits: seq<Rows>, text: seq<Code>, k: nat)
    requires SPACE < |font| && 8 * |font| <= |memory| && Copied(memory, font, |font|)
    requires |text| <= |digits| && k < |digits|
    ensures Showing(digits, GlyphsOf(memory, |font|, text))[k]
         == if k >= |text| then digits[k]
            else if text[k] < |font| then Turned(font[text[k]]) else Turned(font[SPACE])
  {
  }

  class Max7219Matrix {
    const fontSize: nat
    const memory: array<bv8>
    const spiData: array<bv8>
    const chain: Chain
    const count: nat

    ghost predicate Valid()
      reads this, chain
    {
      && SPACE < fontSize && memory.Length == 8 * fontSize + 8
      && spiData.Length == SPI_DATA_SIZE && spiData != memory
      && chain.Valid() && chain.count == count && 2 * count <= SPI_DATA_SIZE
    }

    /** `memory` begins with the driver's copy of the font. */
    constructor (font: seq<Rows>, memory: array<bv8>, chain: Chain)
      requires SPACE < |font| && memory.Length == 8 * |font| + 8
      requires chain.Valid() && 2 * chain.count <= SPI_DATA_SIZE
      modifies memory
      ensures Valid() && fresh(spiData)
      ensures fontSize == |font| && this.memory == memory && this.chain == chain
      ensures Copied(memory[..], font, |font|)
      ensures memory[8 * |font|..] == old(memory[8 * |font|..])
    {
      fontSize := |font|;
      this.memory := memory;
      spiData := new bv8[SPI_DATA_SIZE];
      this.chain := chain;
      count := chain.count;
      new;
      for i := 0 to |font|
        invariant Valid()
        invariant forall c :: 0 <= c < i ==> memory[8 * c..8 * c + 8] == Turned(font[c])
        invariant memory[8 * |font|..] == old(memory[8 * |font|..])
      {
        for j := 0 to 8
          invariant Valid()
          invariant forall c :: 0 <= c < i ==> memory[8 * c..8 * c + 8] == Turned(font[c])
          invariant forall y :: 0 <= y < j ==> memory[8 * i + y] == Turned(font[i])[y]
          invariant memory[8 * |font|..] == old(memory[8 * |font|..])
        {
          memory[8 * i + j] := Rotate(font[i], 7 - j);
        }
      }
    }

    static method Rotate(rows: Rows, x: nat) returns (byte: bv8)
      requires x < 8
      ensures byte == Column(rows, x, 8)
      ensures forall y :: 0 <= y < 8 ==> (Bit(byte, y) <==> Bit(rows[y], x))
    {
      byte := 0;
      for y := 0 to 8
        invariant byte == Column(rows, x, y)
      {
        byte := byte | (if Bit(rows[y], x) then Mask(y) else 0);
      }
      forall y | 0 <= y < 8
        ensures Bit(byte, y) <==> Bit(rows[y], x)
      {
        ColumnBit(rows, x, 8, y);
      }
    }

    method UpdateCharacter(c: nat, rows: Rows)
      requires Valid()
      modifies memory
      ensures Valid()
      ensures memory[..] == Updated(old(memory[..]), fontSize, c, rows)
    {
      if c > fontSize {
        return;
      }
      ghost var was := memory[..];
      for j := 0 to 8
        invariant forall y :: 0 <= y < j ==> memory[8 * c + y] == Turned(rows)[y]
        invariant forall p :: 0 <= p < memory.Length && !(8 * c <= p < 8 * c + j) ==> memory[p] == was[p]
      {
        var b: bv8 := 0;
        for y := 0 to 8
          invariant b == Column(rows, 7 - j, y)
        {
          b := b | (if Bit(rows[y], 7 - j) then Mask(y) else 0);
        }
        memory[8 * c + j] := b;
      }
      ReplacedPointwise(was, memory[..], c, Turned(rows));
    }

    /** The next word of the frame. */
    method Put(j: nat, register: bv8, data: bv8)
      requires j + 2 <= spiData.Length
      modifies spiData
      ensures spiData[..j + 2] == old(spiData[..j]) + [register, data]
    {
      spiData[j] := register;
      spiData[j + 1] := data;
    }

    method FillNoOps(n: nat) returns (j: nat)
      requires 2 * n <= spiData.Length
      modifies spiData
      ensures j == 2 * n && spiData[..j] == NoOps(n)
    {
      j := 0;
      while j < 2 * n
        invariant j <= 2 * n && j % 2 == 0
        invariant spiData[..j] == NoOps(j / 2)
      {
        Put(j, NOOP, 0);
        j := j + 2;
      }
    }

    method FillWords(text: seq<Code>, length: nat, i: nat, start: nat, ghost glyphs: seq<Rows>)
      requires SPACE < fontSize && 8 * fontSize <= memory.Length && spiData != memory
      requires length <= |text| && 1 <= i <= 8 && start + 2 * length <= spiData.Length
      requires |glyphs| == length
      requires forall k :: 0 <= k < length ==> glyphs[k][i - 1] == memory[8 * Shown(text[k], fontSize) + i - 1]
      modifies spiData
      ensures spiData[..start + 2 * length] == old(spiData[..start]) + Words(glyphs, length, i)
    {
      ghost var front := spiData[..start];
      var j := start;
      var k := length;
      while k > 0
        invariant 0 <= k <= length && j == start + 2 * (length - k)
        invariant spiData[..j] == front + Words(glyphs, length - k, i)
      {
        k := k - 1;
        WordsStep(front, glyphs, length - k, i);
        FillWord(text[k], i, j, glyphs[k]);
        j := j + 2;
      }
    }

    method FillWord(c: Code, i: nat, j: nat, ghost glyph: Rows)
      requires SPACE < fontSize && 8 * fontSize <= memory.Length && spiData != memory
      requires 1 <= i <= 8 && j + 2 <= spiData.Length && glyph[i - 1] == memory[8 * Shown(c, fontSize) + i - 1]
      modifies spiData
      ensures spiData[..j + 2] == old(spiData[..j]) + [DigitRegister(i), glyph[i - 1]]
    {
      var shown := if c >= fontSize then SPACE else c;
      Put(j, DigitRegister(i), memory[8 * shown + i - 1]);
    }

    method FillFrame(text: seq<Code>, length: nat, i: nat, ghost glyphs: seq<Rows>)
      requires Valid() && length <= count && length <= |text| && 1 <= i <= 8
      requires |glyphs| == length
      requires forall k :: 0 <= k < length ==> glyphs[k][i - 1] == memory[8 * Shown(text[k], fontSize) + i - 1]
      modifies spiData
      ensures spiData[..2 * count] == Frame(count, glyphs, i)
    {
      var j := FillNoOps(count - length);
      FillWords(text, length, i, j, glyphs);
    }

    /** Row i of all characters. */
    method SendRow(text: seq<Code>, length: nat, i: nat, ghost was: seq<Rows>, ghost glyphs: seq<Rows>)
      requires Valid() && length <= count && length <= |text| && 1 <= i <= 8
      requires |glyphs| == length
      requires forall k :: 0 <= k < length ==> glyphs[k][i - 1] == memory[8 * Shown(text[k], fontSize) + i - 1]
      requires |was| == count && chain.digits == Partly(was, glyphs, i - 1)
      modifies spiData, chain
      ensures Valid() && chain.digits == Partly(was, glyphs, i)
    {
      FillFrame(text, length, i, glyphs);
      FrameAddresses(count, glyphs, i);
      FrameAdvances(was, glyphs, i, spiData[..2 * count]);
      chain.Write(spiData, 2 * count);
    }

    /** Module k shows character k; modules beyond the text keep what they show. */
    method Write(text: seq<Code>, n: nat)
      requires Valid() && Min(n, count) <= |text|
      modifies spiData, chain
      ensures Valid()
      ensures chain.digits == Showing(old(chain.digits), GlyphsOf(memory[..], fontSize, text[..Min(n, count)]))
    {
      var length := if n > count then count else n;
      ghost var glyphs := GlyphsOf(memory[..], fontSize, text[..length]);
      ghost var was := chain.digits;
      AllSent(was, glyphs);
      for i := 1 to 9
        invariant Valid()
        invariant memory[..] == old(memory[..])
        invariant chain.digits == Partly(was, glyphs, i - 1)
      {
        forall k | 0 <= k < length
          ensures glyphs[k][i - 1] == memory[8 * Shown(text[k], fontSize) + i - 1]
        {
          GlyphRow(memory[..], fontSize, text[..length], k, i);
        }
        SendRow(text, length, i, was, glyphs);
      }
    }
  }
}
