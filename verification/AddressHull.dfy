/** The DMX slots a light set occupies, the hull of several of them, and moving them together. */
module AddressHull {
  import opened Dmx
  import opened Words

  datatype Span = Span(start: Word, footprint: Word) {
    function End(): nat {
      start + footprint
    }

    /** The whole span lies in the 16-bit address range, and it is not the mark for "no address". */
    predicate Proper() {
      start != ADDRESS_INVALID && End() < WORD_SIZE
    }

    predicate Covers(other: Span) {
      start <= other.start && other.End() <= End()
    }
  }

  const NOTHING := Span(ADDRESS_INVALID, 0)

  function Min(x: Word, y: Word): Word {
    if x < y then x else y
  }

  function Max(x: Word, y: Word): Word {
    if x < y then y else x
  }

  /** A hull after one more span, in 16-bit arithmetic. */
  function Widened(hull: Span, span: Span): Span {
    if hull.start == ADDRESS_INVALID then span
    else
      var start := Min(hull.start, span.start);
      Span(start, Turned(Max(Turned(hull.End()), Turned(span.End())) - start))
  }

  /** The smallest interval that covers every span. */
  ghost predicate IsHull(hull: Span, spans: seq<Span>) {
    && (forall i :: 0 <= i < |spans| ==> hull.Covers(spans[i]))
    && (exists i :: 0 <= i < |spans| && spans[i].start == hull.start)
    && (exists i :: 0 <= i < |spans| && spans[i].End() == hull.End())
  }

  lemma IsHullIsSmallest(hull: Span, spans: seq<Span>, other: Span)
    requires IsHull(hull, spans)
    ensures other.Covers(hull) <==> forall i :: 0 <= i < |spans| ==> other.Covers(spans[i])
  {
  }

  /** Inside the 16 bits, widening is what it would be without wrapping. */
  lemma WidenedProper(hull: Span, span: Span)
    requires hull.Proper() && span.End() < WORD_SIZE
    ensures Widened(hull, span).Proper()
    ensures Widened(hull, span).start == Min(hull.start, span.start)
    ensures Widened(hull, span).End() == Max(hull.End(), span.End())
  {
  }

  /** A span that reaches beyond the 16 bits is never covered. */
  lemma WidenedWraps(hull: Span, span: Span)
    requires hull.Proper() && span.End() >= WORD_SIZE
    ensures !Widened(hull, span).Covers(span)
  {
  }

  lemma WidenedCovers(hull: Span, spans: seq<Span>, span: Span)
    requires hull.Proper() && IsHull(hull, spans) && span.End() < WORD_SIZE
    ensures forall k :: 0 <= k < |spans| ==> Widened(hull, span).Covers(spans[k])
    ensures Widened(hull, span).Covers(span)
  {
    WidenedProper(hull, span);
  }

  /** Widening a hull gives the smallest interval around all spans, the new one included, exactly if that one
      ends within the 16 bits. */
  lemma WidenedIsHullIff(hull: Span, spans: seq<Span>, span: Span)
    requires spans != [] && hull.Proper() && IsHull(hull, spans)
    ensures IsHull(Widened(hull, span), spans + [span]) <==> span.End() < WORD_SIZE
    ensures span.End() < WORD_SIZE ==> Widened(hull, span).Proper()
  {
    var all, n := spans + [span], |spans|;
    assert all[n] == span;
    if span.End() < WORD_SIZE {
      var i :| 0 <= i < n && spans[i].start == hull.start;
      var j :| 0 <= j < n && spans[j].End() == hull.End();
      WidenedProper(hull, span);
      WidenedCovers(hull, spans, span);
      assert all[if span.start < hull.start then n else i].start == Widened(hull, span).start;
      assert all[if hull.End() < span.End() then n else j].End() == Widened(hull, span).End();
    } else {
      WidenedWraps(hull, span);
    }
  }

  // ---- moving

  /** A start address moved along when a reference address moves. */
  function Moved(start: Word, from: Word, to: Word): Word {
    Turned(start - from + to)
  }

  lemma MovedBack(start: Word, from: Word, to: Word)
    ensures Moved(Moved(start, from, to), to, from) == start
  {
  }

  /** An address stays where it is exactly if the reference does. */
  lemma MovedNowhereIff(start: Word, from: Word, to: Word)
    ensures Moved(start, from, to) == start <==> from == to
  {
  }

  /** However far two addresses move along, they stay as far apart, up to whole turns. */
  lemma OffsetsKept(a: Word, b: Word, from: Word, to: Word)
    ensures Turned(Moved(a, from, to) - Moved(b, from, to)) == Turned(a - b)
  {
  }

  /** Moving along with something that itself moves along is moving along with the outermost. */
  lemma MovedNested(inner: Word, outer: Word, from: Word, to: Word)
    ensures Moved(inner, outer, Moved(outer, from, to)) == Moved(inner, from, to)
  {
  }

  function SpanMoved(span: Span, from: Word, to: Word): Span {
    Span(Moved(span.start, from, to), span.footprint)
  }

  /** Spans some of which move along, while the others stay. */
  function SpansMoved(spans: seq<Span>, moves: seq<bool>, from: Word, to: Word): (s: seq<Span>)
    requires |moves| == |spans|
    ensures |s| == |spans|
  {
    seq(|spans|, i requires 0 <= i < |spans| => if moves[i] then SpanMoved(spans[i], from, to) else spans[i])
  }

  /** What has to hold before a move for the moved interval to be the hull of what it leaves: spans that move
      keep their start in the 16 bits, spans that stay lie inside already, and each end of the interval is
      the end of a span that moves with it, or of one that stays and is there already. */
  ghost predicate HullMoves(hull: Span, spans: seq<Span>, moves: seq<bool>, to: Word)
    requires |moves| == |spans|
  {
    && (forall i :: 0 <= i < |spans| ==>
          if moves[i] then spans[i].start - hull.start + to < WORD_SIZE else Span(to, hull.footprint).Covers(spans[i]))
    && (exists i :: 0 <= i < |spans| && spans[i].start == if moves[i] then hull.start else to)
    && (exists i :: 0 <= i < |spans| && spans[i].End() == if moves[i] then hull.End() else to + hull.footprint)
  }

  lemma HullMovesIff(hull: Span, spans: seq<Span>, moves: seq<bool>, to: Word)
    requires |moves| == |spans| && IsHull(hull, spans)
    ensures IsHull(Span(to, hull.footprint), SpansMoved(spans, moves, hull.start, to)) <==> HullMoves(hull, spans, moves, to)
  {
    AllCoveredIff(hull, spans, moves, to);
    if forall k :: 0 <= k < |spans| && moves[k] ==> spans[k].start - hull.start + to < WORD_SIZE {
      EndsMoveIff(hull, spans, moves, to);
    }
  }

  lemma AllCoveredIff(hull: Span, spans: seq<Span>, moves: seq<bool>, to: Word)
    requires |moves| == |spans| && IsHull(hull, spans)
    ensures var after, moved := Span(to, hull.footprint), SpansMoved(spans, moves, hull.start, to);
      forall k :: 0 <= k < |spans| ==>
        (after.Covers(moved[k])
         <==> if moves[k] then spans[k].start - hull.start + to < WORD_SIZE else after.Covers(spans[k]))
  {
    forall k | 0 <= k < |spans|
      ensures Span(to, hull.footprint).Covers(SpanMoved(spans[k], hull.start, to))
         <==> spans[k].start - hull.start + to < WORD_SIZE
    {
      MovedCoveredIff(hull, spans[k], to);
    }
  }

  lemma MovedCoveredIff(hull: Span, span: Span, to: Word)
    requires hull.Covers(span)
    ensures Span(to, hull.footprint).Covers(SpanMoved(span, hull.start, to)) <==> span.start - hull.start + to < WORD_SIZE
    ensures span.start - hull.start + to < WORD_SIZE ==>
      Moved(span.start, hull.start, to) == span.start - hull.start + to
  {
  }

  lemma EndsMoveIff(hull: Span, spans: seq<Span>, moves: seq<bool>, to: Word)
    requires |moves| == |spans| && IsHull(hull, spans)
    requires forall k :: 0 <= k < |spans| && moves[k] ==> spans[k].start - hull.start + to < WORD_SIZE
    ensures var moved := SpansMoved(spans, moves, hull.start, to);
      forall k :: 0 <= k < |spans| ==>
        && (moved[k].start == to <==> spans[k].start == if moves[k] then hull.start else to)
        && (moved[k].End() == to + hull.footprint
            <==> spans[k].End() == if moves[k] then hull.End() else to + hull.footprint)
  {
    forall k | 0 <= k < |spans| && moves[k]
      ensures Moved(spans[k].start, hull.start, to) == spans[k].start - hull.start + to
    {
      MovedCoveredIff(hull, spans[k], to);
    }
  }

  /** If all of them move, that is exactly that no start address leaves the 16 bits. */
  lemma AllMoveIff(hull: Span, spans: seq<Span>, moves: seq<bool>, to: Word)
    requires |moves| == |spans| && IsHull(hull, spans) && forall i :: 0 <= i < |spans| ==> moves[i]
    ensures HullMoves(hull, spans, moves, to)
       <==> forall i :: 0 <= i < |spans| ==> spans[i].start - hull.start + to < WORD_SIZE
  {
  }
}
