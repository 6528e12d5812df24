/** Eight-by-eight glyphs, a byte a row, and the quarter turn that a matrix module needs. */
module Glyph {

  type Rows = s: seq<bv8> | |s| == 8 witness [0, 0, 0, 0, 0, 0, 0, 0]

  function Mask(x: nat): bv8
    requires x < 8
  {
    if x < 4 then (if x == 0 then 0x01 else if x == 1 then 0x02 else if x == 2 then 0x04 else 0x08)
    else (if x == 4 then 0x10 else if x == 5 then 0x20 else if x == 6 then 0x40 else 0x80)
  }

  predicate Bit(b: bv8, x: nat)
    requires x < 8
  {
    b & Mask(x) != 0
  }

  function WithBit(b: bv8, y: nat, on: bool): bv8
    requires y < 8
  {
    b | (if on then Mask(y) else 0)
  }

  /** Column x of the first n rows, row 0 in the lowest bit. */
  function Column(rows: Rows, x: nat, n: nat): bv8
    requires x < 8 && n <= 8
  {
    if n == 0 then 0 else WithBit(Column(rows, x, n - 1), n - 1, Bit(rows[n - 1], x))
  }

  /** The glyph whose rows are the columns, the highest one first. */
  function Turned(rows: Rows): Rows {
    seq(8, j requires 0 <= j < 8 => Column(rows, 7 - j, 8))
  }

  lemma WithBitSets(b: bv8, y: nat, on: bool, z: nat)
    requires y < 8 && z < 8
    ensures Bit(WithBit(b, y, on), z) <==> Bit(b, z) || (y == z && on)
  {
  }

  lemma {:induction false} ColumnBit(rows: Rows, x: nat, n: nat, y: nat)
    requires x < 8 && n <= 8 && y < 8
    ensures Bit(Column(rows, x, n), y) <==> y < n && Bit(rows[y], x)
  {
    if n > 0 {
      ColumnBit(rows, x, n - 1, y);
      WithBitSets(Column(rows, x, n - 1), n - 1, Bit(rows[n - 1], x), y);
    }
  }

  /** Pixel (j, y) of the turned glyph is pixel (y, 7 - j) of the original. */
  lemma TurnedBit(rows: Rows, j: nat, y: nat)
    requires j < 8 && y < 8
    ensures Bit(Turned(rows)[j], y) <==> Bit(rows[y], 7 - j)
  {
    ColumnBit(rows, 7 - j, 8, y);
  }

  lemma BitsDetermine(a: bv8, b: bv8)
    requires forall x :: 0 <= x < 8 ==> (Bit(a, x) <==> Bit(b, x))
    ensures a == b
  {
    assert Bit(a, 0) == Bit(b, 0) && Bit(a, 1) == Bit(b, 1) && Bit(a, 2) == Bit(b, 2) && Bit(a, 3) == Bit(b, 3);
    assert Bit(a, 4) == Bit(b, 4) && Bit(a, 5) == Bit(b, 5) && Bit(a, 6) == Bit(b, 6) && Bit(a, 7) == Bit(b, 7);
  }

  /** Four quarter turns give the glyph back, pixel by pixel. */
  lemma FourTurns(rows: Rows)
    ensures Turned(Turned(Turned(Turned(rows)))) == rows
  {
    var once := Turned(rows);
    var twice := Turned(once);
    var thrice := Turned(twice);
    forall j | 0 <= j < 8
      ensures Turned(thrice)[j] == rows[j]
    {
      forall y | 0 <= y < 8
        ensures Bit(Turned(thrice)[j], y) <==> Bit(rows[j], y)
      {
        TurnedBit(thrice, j, y);
        TurnedBit(twice, y, 7 - j);
        TurnedBit(once, 7 - j, 7 - y);
        TurnedBit(rows, 7 - y, j);
      }
      BitsDetermine(Turned(thrice)[j], rows[j]);
    }
  }

  /** Hence different glyphs look different on the module. */
  lemma TurnedApart(a: Rows, b: Rows)
    ensures Turned(a) == Turned(b) <==> a == b
  {
    FourTurns(a);
    FourTurns(b);
  }
}
