/** A chain of light sets that share a universe. */
module LightSetChain {
  import opened AddressHull
  import opened Dmx
  import opened LightSets
  import opened Words

  const MAX_ENTRIES: nat := 16

  // ---- chains as values

  /** The slots of a chain and its members. */
  datatype ChainView = ChainView(span: Span, members: seq<View>)

  function SpansOf(members: seq<View>): (s: seq<Span>)
    ensures |s| == |members|
  {
    seq(|members|, i requires 0 <= i < |members| => members[i].span)
  }

  function MembersMoved(members: seq<View>, from: Word, to: Word): (m: seq<View>)
    ensures |m| == |members|
  {
    seq(|members|, i requires 0 <= i < |members| => MemberMoved(members[i], from, to))
  }

  /** A chain given a new start address. It takes it whatever its members do. */
  function ChainMoved(c: ChainView, to: Word): ChainView {
    if to == c.span.start then c
    else ChainView(Span(to, c.span.footprint), MembersMoved(c.members, c.span.start, to))
  }

  /** Which members accept the address that a move of the chain asks them to take. */
  function Accepting(c: ChainView, to: Word): (a: seq<bool>)
    ensures |a| == |c.members|
  {
    seq(|c.members|, i requires 0 <= i < |c.members| =>
      c.members[i].Accepts(Moved(c.members[i].span.start, c.span.start, to)))
  }

  predicate AllAccept(c: ChainView, to: Word) {
    forall i :: 0 <= i < |c.members| ==> c.members[i].Accepts(Moved(c.members[i].span.start, c.span.start, to))
  }

  /** No start address leaves the 16 bits. */
  predicate StaysInWord(c: ChainView, to: Word) {
    forall i :: 0 <= i < |c.members| ==> c.members[i].span.start - c.span.start + to < WORD_SIZE
  }

  /** Every member has moved by what the chain has moved by, in 16 bits. */
  predicate AllMoved(c: ChainView, after: ChainView) {
    && |after.members| == |c.members|
    && forall i :: 0 <= i < |c.members| ==> after.members[i].span == SpanMoved(c.members[i].span, c.span.start, after.span.start)
  }

  /** Every member is as far into the chain as before. */
  predicate KeepsPlaces(c: ChainView, after: ChainView) {
    && |after.members| == |c.members|
    && forall i :: 0 <= i < |c.members| ==>
         after.members[i].span.start - after.span.start == c.members[i].span.start - c.span.start
  }

  lemma MovedMember(c: ChainView, to: Word, i: nat)
    requires to != c.span.start && i < |c.members|
    ensures var view, accepts := c.members[i], Accepting(c, to)[i];
      && (ChainMoved(c, to).members[i].span == if accepts then SpanMoved(view.span, c.span.start, to) else view.span)
      && SpanMoved(view.span, c.span.start, to) != view.span
      && (accepts ==> ChainMoved(c, to).members[i].motors == MotorsMoved(view.motors, c.span.start, to))
      && (!accepts ==> ChainMoved(c, to).members[i] == view)
  {
    MemberMovesIff(c.members[i], c.span.start, to);
    MovedNowhereIff(c.members[i].span.start, c.span.start, to);
  }

  /** Every member moves with the chain exactly if each accepts its new address. */
  lemma AllMovedIff(c: ChainView, to: Word)
    requires to != c.span.start
    ensures AllMoved(c, ChainMoved(c, to)) <==> AllAccept(c, to)
  {
    forall i | 0 <= i < |c.members|
      ensures ChainMoved(c, to).members[i].span == SpanMoved(c.members[i].span, c.span.start, to) <==> Accepting(c, to)[i]
    {
      MovedMember(c, to, i);
    }
  }

  /** The moved interval is the hull of the members afterwards exactly if those that accept stay in the 16 bits,
      those that refuse lie inside it already, and both of its ends are taken. */
  lemma MovedHullIff(c: ChainView, to: Word)
    requires to != c.span.start && IsHull(c.span, SpansOf(c.members))
    ensures var after := ChainMoved(c, to);
      IsHull(after.span, SpansOf(after.members)) <==> HullMoves(c.span, SpansOf(c.members), Accepting(c, to), to)
  {
    var after := ChainMoved(c, to);
    forall i | 0 <= i < |c.members|
      ensures SpansOf(after.members)[i] == SpansMoved(SpansOf(c.members), Accepting(c, to), c.span.start, to)[i]
    {
      MovedMember(c, to, i);
    }
    assert SpansOf(after.members) == SpansMoved(SpansOf(c.members), Accepting(c, to), c.span.start, to);
    HullMovesIff(c.span, SpansOf(c.members), Accepting(c, to), to);
  }

  /** The place of one member: kept exactly if it accepts and its start stays in the 16 bits. */
  lemma KeepsPlaceIff(c: ChainView, to: Word, i: nat)
    requires to != c.span.start && i < |c.members| && c.span.Covers(c.members[i].span)
    ensures ChainMoved(c, to).members[i].span.start - to == c.members[i].span.start - c.span.start
       <==> Accepting(c, to)[i] && c.members[i].span.start - c.span.start + to < WORD_SIZE
  {
    MovedMember(c, to, i);
    MovedCoveredIff(c.span, c.members[i].span, to);
  }

  lemma KeepsPlacesIff(c: ChainView, to: Word)
    requires to != c.span.start && IsHull(c.span, SpansOf(c.members))
    ensures KeepsPlaces(c, ChainMoved(c, to)) <==> AllAccept(c, to) && StaysInWord(c, to)
  {
    var spans := SpansOf(c.members);
    forall i | 0 <= i < |c.members|
      ensures ChainMoved(c, to).members[i].span.start - to == c.members[i].span.start - c.span.start
         <==> Accepting(c, to)[i] && c.members[i].span.start - c.span.start + to < WORD_SIZE
    {
      assert c.span.Covers(spans[i]);
      KeepsPlaceIff(c, to, i);
    }
  }

  /** The chain moves as a whole, every member keeping its place and the interval being the smallest around
      them, exactly if each member accepts its new address and none leaves the 16 bits. */
  lemma MovesAsWholeIff(c: ChainView, to: Word)
    requires to != c.span.start && IsHull(c.span, SpansOf(c.members))
    ensures var after := ChainMoved(c, to);
      KeepsPlaces(c, after) && IsHull(after.span, SpansOf(after.members)) <==> AllAccept(c, to) && StaysInWord(c, to)
  {
    KeepsPlacesIff(c, to);
    if AllAccept(c, to) && StaysInWord(c, to) {
      MovedHullIff(c, to);
      AllMoveIff(c.span, SpansOf(c.members), Accepting(c, to), to);
    }
  }

  /** Moving a chain and moving it back restores it exactly if every member comes back: if it accepts both
      addresses, or refuses both requests. */
  lemma MovesBackIff(c: ChainView, to: Word)
    requires to != c.span.start
    ensures ChainMoved(ChainMoved(c, to), c.span.start) == c
       <==> forall i :: 0 <= i < |c.members| ==> ComesBack(c.members[i], c.span.start, to)
  {
    var back := ChainMoved(ChainMoved(c, to), c.span.start);
    forall i | 0 <= i < |c.members|
      ensures back.members[i] == c.members[i] <==> ComesBack(c.members[i], c.span.start, to)
    {
      MemberMovesBackIff(c.members[i], c.span.start, to);
    }
    assert back.members == c.members <==> forall i :: 0 <= i < |c.members| ==> back.members[i] == c.members[i];
  }

  /** The stepper board with a string of LEDs behind it. */
  function BoardWithLeds(board: Span, motors: seq<Motor>, leds: Span): ChainView {
    ChainView(Widened(board, leds), [View(Board, board, motors), View(Leds(3), leds, [])])
  }

  lemma BoardWithLedsSpans(board: Span, motors: seq<Motor>, leds: Span)
    requires board.Proper() && leds.End() < WORD_SIZE
    ensures var c := BoardWithLeds(board, motors, leds);
      SpansOf(c.members) == [board, leds] && IsHull(c.span, SpansOf(c.members))
  {
    assert [board] + [leds] == [board, leds];
    assert [board][0] == board;
    WidenedIsHullIff(board, [board], leds);
  }

  /** A board at 1 to 4 and twelve slots of LEDs at 5, moved to 500: the LEDs refuse 504 and stay, and the chain
      claims 500 to 515, although no address leaves the 16 bits. Moving back restores it. */
  lemma LedsStayBehind(motors: seq<Motor>)
    ensures var c := BoardWithLeds(Span(1, 4), motors, Span(5, 12)); var after := ChainMoved(c, 500);
      && c.span == Span(1, 16) && IsHull(c.span, SpansOf(c.members)) && StaysInWord(c, 500)
      && after.span == Span(500, 16) && SpansOf(after.members) == [Span(500, 4), Span(5, 12)]
      && !IsHull(after.span, SpansOf(after.members))
      && ChainMoved(after, 1) == c
  {
    var c := BoardWithLeds(Span(1, 4), motors, Span(5, 12));
    BoardWithLedsSpans(Span(1, 4), motors, Span(5, 12));
    LedsComeBack(motors);
    assert SpansOf(ChainMoved(c, 500).members)[1] == Span(5, 12);
  }

  lemma LedsComeBack(motors: seq<Motor>)
    ensures var c := BoardWithLeds(Span(1, 4), motors, Span(5, 12)); ChainMoved(ChainMoved(c, 500), 1) == c
  {
    MovesBackIff(BoardWithLeds(Span(1, 4), motors, Span(5, 12)), 500);
  }

  /** A refusal can go unnoticed: the LEDs stay at 480, where the moved board still surrounds them. So the interval
      alone does not tell whether every member has moved. */
  lemma RefusalSurrounded(motors: seq<Motor>)
    ensures var c := BoardWithLeds(Span(1, 515), motors, Span(480, 12)); var after := ChainMoved(c, 30);
      && IsHull(c.span, SpansOf(c.members)) && !AllAccept(c, 30)
      && SpansOf(after.members) == [Span(30, 515), Span(480, 12)] && IsHull(after.span, SpansOf(after.members))
  {
    var c := BoardWithLeds(Span(1, 515), motors, Span(480, 12));
    BoardWithLedsSpans(Span(1, 515), motors, Span(480, 12));
    assert Moved(480, 1, 30) == 509 && !c.members[1].Accepts(509);
    var after := ChainMoved(c, 30);
    assert SpansOf(after.members)[0] == Span(30, 515) && SpansOf(after.members)[1] == Span(480, 12);
  }

  /** And one that refuses the way there but not the way back ends up somewhere else: from 490 at 391. */
  lemma LedsComeBackElsewhere(motors: seq<Motor>)
    ensures var c := BoardWithLeds(Span(1, 4), motors, Span(490, 11)); var back := ChainMoved(ChainMoved(c, 100), 1);
      back.span == c.span && back.members[0] == c.members[0] && back.members[1].span == Span(391, 11)
  {
    var c := BoardWithLeds(Span(1, 4), motors, Span(490, 11));
    MemberMovesBackIff(c.members[0], 1, 100);
  }

  // ---- adding members

  /** What the chain asks of a member's slots. */
  predicate Accepted(span: Span) {
    span.start > 0 && span.footprint - span.start < UNIVERSE_SIZE
  }

  /** In plain numbers: a member is refused exactly if it begins at 0, or has 512 slots more than its start address
      or more.  One that lies in the universe passes; so does one that ends beyond it, by up to 2 start - 2 slots. */
  lemma AcceptedIff(span: Span)
    ensures !Accepted(span) <==> span.start == 0 || span.footprint >= span.start + 512
    ensures span.start >= 1 && span.End() <= 513 ==> Accepted(span)
    ensures Accepted(span) && span.End() > 513
       <==> span.start >= 1 && 514 - span.start <= span.footprint <= span.start + 511
  {
  }

  /** So for every start address but 1 there is a member that passes and ends beyond the universe. */
  lemma LetsThroughIff(start: Word)
    ensures (exists footprint: Word :: Accepted(Span(start, footprint)) && start + footprint > 513) <==> start >= 2
  {
    if start >= 2 {
      var footprint: Word := if start <= 513 then 514 - start else 1;
      assert Accepted(Span(start, footprint)) && start + footprint > 513;
    }
  }

  /** A table and its slots after one more member: "no address" stands for an empty table. */
  function AddedTo<T>(table: seq<T>, hull: Span, member: T, span: Span): (seq<T>, Span) {
    (if hull.start == ADDRESS_INVALID then [member] else table + [member], Widened(hull, span))
  }

  lemma AddedIsLast<T>(table: seq<T>, hull: Span, member: T, span: Span)
    ensures AddedTo(table, hull, member, span).0 == (if hull.start == 0xFFFF then [] else table) + [member]
  {
  }

  /** The next addition keeps the members there are exactly if their slots do not begin at that mark. */
  lemma KeepsMembersIff<T>(table: seq<T>, hull: Span, member: T, span: Span)
    requires table != [] && member !in table
    ensures table <= AddedTo(table, hull, member, span).0 <==> hull.start != ADDRESS_INVALID
  {
    if hull.start == ADDRESS_INVALID {
      assert table[0] != member;
      assert AddedTo(table, hull, member, span).0[0] == member;
    }
  }

  /** So a first member at the mark is accepted, and gone when the second comes. */
  lemma FirstAtMarkIsLost<T>(first: T, second: T, span: Span, next: Span)
    requires span.start == ADDRESS_INVALID
    ensures var (table, hull) := AddedTo([], NOTHING, first, span);
      Accepted(span) && table == [first] && AddedTo(table, hull, second, next) == ([second], next)
  {
  }

  datatype Entry = Entry(lightSet: LightSet, kind: int)

  /** How many times a light set is in a table. */
  ghost function Occurrences(table: seq<Entry>, lightSet: LightSet): nat {
    if table == [] then 0
    else
      var n := |table| - 1;
      Occurrences(table[..n], lightSet) + if table[n].lightSet == lightSet then 1 else 0
  }

  lemma OccursNext(table: seq<Entry>, i: nat, lightSet: LightSet)
    requires i < |table|
    ensures Occurrences(table[..i + 1], lightSet)
         == Occurrences(table[..i], lightSet) + if table[i].lightSet == lightSet then 1 else 0
  {
    assert table[..i + 1][..i] == table[..i];
  }

  lemma {:induction false} OccursOnce(table: seq<Entry>, i: nat)
    requires i < |table| && forall j :: 0 <= j < |table| && j != i ==> table[j].lightSet != table[i].lightSet
    ensures Occurrences(table, table[i].lightSet) == 1
  {
    var n := |table| - 1;
    if i < n {
      OccursOnce(table[..n], i);
    } else {
      OccursNever(table[..n], table[i].lightSet);
    }
  }

  lemma {:induction false} OccursNever(table: seq<Entry>, lightSet: LightSet)
    requires forall j :: 0 <= j < |table| ==> table[j].lightSet != lightSet
    ensures Occurrences(table, lightSet) == 0
  {
    if table != [] {
      OccursNever(table[..|table| - 1], lightSet);
    }
  }

  /** A member that is in the table several times is asked to move once for each. */
  function MovedTimes(view: View, from: Word, to: Word, times: nat): View {
    if times == 0 then view else MemberMoved(MovedTimes(view, from, to, times - 1), from, to)
  }

  /** A start address moved along n times. */
  function Ahead(start: Word, from: Word, to: Word, n: nat): Word {
    if n == 0 then start else Moved(Ahead(start, from, to, n - 1), from, to)
  }

  /** It is n times as far, up to whole turns. */
  lemma {:induction false} AheadIsFar(start: Word, from: Word, to: Word, n: nat)
    ensures Ahead(start, from, to, n) == Wrapped(start + n * (to - from))
  {
    if n > 0 {
      AheadIsFar(start, from, to, n - 1);
      NextMultiple(n - 1, to - from);
      WrappedSum(start + (n - 1) * (to - from), to - from);
      TurnedIsWrapped(Ahead(start, from, to, n - 1) - from + to);
    }
  }

  lemma NextMultiple(n: nat, d: int)
    ensures (n + 1) * d == n * d + d
  {
  }

  /** A member takes the address n moves ahead of its own. */
  predicate Takes(view: View, from: Word, to: Word, n: nat) {
    view.Accepts(Ahead(view.span.start, from, to, n))
  }

  /** How many of these requests it accepts: once it has refused one, it refuses all that follow. */
  function TimesAccepted(view: View, from: Word, to: Word, times: nat): (n: nat)
    ensures n <= times
  {
    if times == 0 then 0
    else
      var n := TimesAccepted(view, from, to, times - 1);
      if n == times - 1 && Takes(view, from, to, times) then times else n
  }

  lemma {:induction false} RefusesNext(view: View, from: Word, to: Word, times: nat)
    ensures var n := TimesAccepted(view, from, to, times); n < times ==> !Takes(view, from, to, n + 1)
  {
    if times > 0 {
      RefusesNext(view, from, to, times - 1);
    }
  }

  /** It accepts all of them exactly if it takes every address on the way. */
  lemma AcceptsAllIff(view: View, from: Word, to: Word, times: nat)
    ensures TimesAccepted(view, from, to, times) == times <==> forall k: nat :: 1 <= k <= times ==> Takes(view, from, to, k)
  {
  }

  predicate HasMoved(view: View, moved: View, from: Word, to: Word, n: nat) {
    moved.kind == view.kind && moved.span == Span(Ahead(view.span.start, from, to, n), view.span.footprint)
  }

  /** A member that has moved n times is asked once more. */
  lemma MovedOnceMore(view: View, moved: View, from: Word, to: Word, n: nat)
    requires from != to && HasMoved(view, moved, from, to, n)
    ensures HasMoved(view, MemberMoved(moved, from, to), from, to, if Takes(view, from, to, n + 1) then n + 1 else n)
  {
    MovedNowhereIff(moved.span.start, from, to);
    assert Ahead(view.span.start, from, to, n + 1) == Moved(moved.span.start, from, to);
    SameAcceptance(view, moved, Moved(moved.span.start, from, to));
  }

  lemma SameAcceptance(view: View, other: View, to: Word)
    requires view.kind == other.kind && view.span.footprint == other.span.footprint
    ensures view.Accepts(to) == other.Accepts(to)
  {
  }

  /** It moves once for each request it accepts. */
  lemma {:induction false} MovedTimesFar(view: View, from: Word, to: Word, times: nat)
    requires from != to
    ensures HasMoved(view, MovedTimes(view, from, to, times), from, to, TimesAccepted(view, from, to, times))
  {
    if times > 0 {
      MovedTimesFar(view, from, to, times - 1);
      RefusesNext(view, from, to, times - 1);
      NextMove(view, MovedTimes(view, from, to, times - 1), from, to, times);
    }
  }

  lemma NextMove(view: View, moved: View, from: Word, to: Word, times: nat)
    requires from != to && times > 0 && HasMoved(view, moved, from, to, TimesAccepted(view, from, to, times - 1))
    requires var n := TimesAccepted(view, from, to, times - 1); n < times - 1 ==> !Takes(view, from, to, n + 1)
    ensures HasMoved(view, MemberMoved(moved, from, to), from, to, TimesAccepted(view, from, to, times))
  {
    MovedOnceMore(view, moved, from, to, TimesAccepted(view, from, to, times - 1));
  }

  lemma {:induction false} MovedTimesNowhere(view: View, at: Word, times: nat)
    ensures MovedTimes(view, at, at, times) == view
  {
    if times > 0 {
      MovedTimesNowhere(view, at, times - 1);
      MovedNowhereIff(view.span.start, at, at);
    }
  }

  /** The next entry of the table asks its light set once more. */
  lemma MovedNext(table: seq<Entry>, i: nat, lightSet: LightSet, view: View, from: Word, to: Word)
    requires i < |table|
    ensures var moved := MovedTimes(view, from, to, Occurrences(table[..i], lightSet));
      MovedTimes(view, from, to, Occurrences(table[..i + 1], lightSet))
      == if table[i].lightSet == lightSet then MemberMoved(moved, from, to) else moved
  {
    OccursNext(table, i, lightSet);
  }

  ghost predicate Distinct(table: seq<Entry>) {
    forall i, j :: 0 <= i < |table| && 0 <= j < |table| && i != j ==> table[i].lightSet != table[j].lightSet
  }

  lemma DistinctMove(table: seq<Entry>, before: seq<View>, after: seq<View>, from: Word, to: Word)
    requires |table| == |before| == |after| && Distinct(table)
    requires forall i :: 0 <= i < |table| ==> after[i] == MovedTimes(before[i], from, to, Occurrences(table, table[i].lightSet))
    ensures after == MembersMoved(before, from, to)
  {
    forall i | 0 <= i < |table| ensures after[i] == MemberMoved(before[i], from, to) {
      MovesOnce(table, i, before[i], from, to);
    }
  }

  /** A member that is in the table once is asked once. */
  lemma MovesOnce(table: seq<Entry>, i: nat, view: View, from: Word, to: Word)
    requires i < |table| && forall j :: 0 <= j < |table| && j != i ==> table[j].lightSet != table[i].lightSet
    ensures MovedTimes(view, from, to, Occurrences(table, table[i].lightSet)) == MemberMoved(view, from, to)
  {
    OccursOnce(table, i);
    assert MovedTimes(view, from, to, 0) == view;
  }

  // ---- slots

  /** The 16-bit offset of a chain's slot from a member is the true one where the member has the slot; where it
      does not, it comes out negative, or beyond the member's last slot, or the slot is behind that one. */
  lemma OffsetInChain(span: Span, member: Span, slotOffset: Word)
    requires span.Proper() && span.Covers(member) && slotOffset <= span.footprint && member.footprint < 0x8000
    ensures var address := span.start + slotOffset;
      var offset := Signed(address - member.start);
      if member.start <= address < member.End() then offset == address - member.start
      else address < member.start && offset >= 0 ==> offset > member.footprint
    ensures member.start <= UNIVERSE_SIZE && span.start + slotOffset < member.start ==>
      Signed(span.start + slotOffset - member.start) < 0
  {
  }

  /** What a member answers when the chain asks it: nothing if it is passed over. */
  lemma MemberAnswers(span: Span, view: View, slotOffset: Word)
    requires span.Proper() && span.Covers(view.span) && slotOffset <= span.footprint && Searchable(view)
    ensures var address := span.start + slotOffset;
      var offset := Signed(address - view.span.start);
      if view.span.End() <= address || offset < 0 then Answer(view, address) == NoSlot
      else if view.span.start + offset == address then offset < view.span.footprint
      else
        && offset > view.span.footprint && Answer(view, address) == NoSlot
        && MotorAnswer(view.motors, view.span.start + offset, 0) == NoSlot
        && !view.kind.Monitor? && !view.kind.Console? && !view.kind.Plain?
  {
    OffsetInChain(span, view.span, slotOffset);
    var address := span.start + slotOffset;
    var offset := Signed(address - view.span.start);
    if !(view.span.start <= address < view.span.End()) {
      NoAnswerOutside(view, address);
      if offset > view.span.footprint {
        NoMotorAnswers(view.span, view.motors, view.span.start + offset, 0);
      }
    }
  }

  ghost predicate AllSearchable(members: seq<View>) {
    forall i :: 0 <= i < |members| ==> Searchable(members[i])
  }

  /** The answer of the first member that has one, or none. */
  ghost predicate FirstAnswer(members: seq<View>, address: nat, member: nat, slot: SlotReport)
    requires AllSearchable(members)
  {
    && member <= |members| && NoAnswer(members, address, member)
    && (slot == NoSlot <==> member == |members|)
    && (member < |members| ==> slot == Answer(members[member], address))
  }

  /** None of the first n members has an answer. */
  ghost predicate NoAnswer(members: seq<View>, address: nat, n: nat)
    requires AllSearchable(members) && n <= |members|
  {
    forall i :: 0 <= i < n ==> Answer(members[i], address) == NoSlot
  }

  ghost predicate CoversAll(span: Span, members: seq<View>) {
    forall i :: 0 <= i < |members| ==> span.Proper() && span.Covers(members[i].span)
  }

  lemma FittingCovers(span: Span, members: seq<View>)
    requires FitsSpans(span, SpansOf(members))
    ensures CoversAll(span, members)
  {
    forall i | 0 <= i < |members| ensures span.Proper() && span.Covers(members[i].span) {
      assert SpansOf(members)[i] == members[i].span;
    }
  }

  lemma NoneAnswers(span: Span, members: seq<View>, slotOffset: Word)
    requires CoversAll(span, members) && AllSearchable(members) && slotOffset >= span.footprint
    ensures NoAnswer(members, span.start + slotOffset, |members|)
  {
    forall i | 0 <= i < |members| ensures Answer(members[i], span.start + slotOffset) == NoSlot {
      NoAnswerOutside(members[i], span.start + slotOffset);
    }
  }

  // ---- the class

  class Chain {
    var table: seq<Entry>
    var span: Span

    ghost function Members(): set<object>
      reads this
    {
      set i | 0 <= i < |table| :: table[i].lightSet
    }

    ghost predicate Valid()
      reads this, Members()
    {
      |table| <= MAX_ENTRIES && forall i :: 0 <= i < |table| ==> table[i].lightSet.Valid()
    }

    ghost function Contents(): (c: ChainView)
      reads this, Members()
      ensures |c.members| == |table|
    {
      ChainView(span, seq(|table|, i requires 0 <= i < |table| reads this, Members() => table[i].lightSet.Whole()))
    }

    /** The chain's slots are the smallest interval around those of its members. */
    ghost predicate Fits()
      reads this, Members()
    {
      FitsSpans(span, SpansOf(Contents().members))
    }

    constructor ()
      ensures Valid() && Fits() && table == []
    {
      table := [];
      span := NOTHING;
    }

    method Add(lightSet: LightSet, kind: int) returns (added: bool)
      requires Valid() && lightSet.Valid()
      modifies this
      ensures Valid()
      ensures added
         <==> |old(table)| < 16 && lightSet.span.start >= 1 && lightSet.span.footprint <= lightSet.span.start + 511
      ensures !added ==> table == old(table) && span == old(span)
      ensures added ==> (table, span) == AddedTo(old(table), old(span), Entry(lightSet, kind), lightSet.span)
      ensures added && old(Fits()) ==>
        (Fits() <==> lightSet.span.End() < WORD_SIZE && (old(table) == [] ==> lightSet.span.start != ADDRESS_INVALID))
    {
      if |table| == MAX_ENTRIES {
        return false;
      }
      if !(lightSet.span.start > 0 && lightSet.span.footprint - lightSet.span.start < UNIVERSE_SIZE) {
        return false;
      }
      Append(lightSet, kind);
      return true;
    }

    method Append(lightSet: LightSet, kind: int)
      requires Valid() && lightSet.Valid() && |table| < MAX_ENTRIES
      modifies this
      ensures Valid() && (table, span) == AddedTo(old(table), old(span), Entry(lightSet, kind), lightSet.span)
      ensures old(Fits()) ==>
        (Fits() <==> lightSet.span.End() < WORD_SIZE && (old(table) == [] ==> lightSet.span.start != ADDRESS_INVALID))
    {
      ghost var spans := SpansOf(Contents().members);
      if span.start == ADDRESS_INVALID {
        table := [Entry(lightSet, kind)];
      } else {
        table := table + [Entry(lightSet, kind)];
      }
      span := Widened(span, lightSet.span);
      if old(Fits()) {
        FitsAfterIff(old(span), spans, lightSet.span);
        assert SpansOf(Contents().members) == spans + [lightSet.span];
      }
    }

    /** Part of the way through a move: the members have been asked by the first i entries of the table. */
    ghost predicate MovedUpTo(before: seq<View>, i: nat, to: Word)
      requires i <= |table| == |before|
      reads this, Members()
    {
      forall j :: 0 <= j < |table| ==>
        table[j].lightSet.Whole() == MovedTimes(before[j], span.start, to, Occurrences(table[..i], table[j].lightSet))
    }

    /** One entry's turn. What the member answers is dropped. */
    method MoveMember(i: nat, to: Word, ghost before: seq<View>)
      requires Valid() && i < |table| == |before| && MovedUpTo(before, i, to)
      modifies Members()
      ensures Valid() && table == old(table) && span == old(span) && MovedUpTo(before, i + 1, to)
    {
      var lightSet := table[i].lightSet;
      var moved := Moved(lightSet.span.start, span.start, to);
      var _ := lightSet.SetDmxStartAddress(moved);
      forall j | 0 <= j < |table|
        ensures table[j].lightSet.Whole()
             == MovedTimes(before[j], span.start, to, Occurrences(table[..i + 1], table[j].lightSet))
      {
        MovedNext(table, i, table[j].lightSet, before[j], span.start, to);
      }
    }

    method MoveMembers(to: Word, ghost before: seq<View>)
      requires Valid() && before == Contents().members
      modifies Members()
      ensures Valid() && table == old(table) && span == old(span)
      ensures forall i :: 0 <= i < |table| ==>
        table[i].lightSet.Whole() == MovedTimes(before[i], span.start, to, Occurrences(table, table[i].lightSet))
    {
      for i := 0 to |table|
        invariant table == old(table) && span == old(span) && Valid() && MovedUpTo(before, i, to)
      {
        MoveMember(i, to, before);
      }
      assert table[..|table|] == table;
    }

    method SetDmxStartAddress(to: Word) returns (done: bool)
      requires Valid()
      modifies this, Members()
      ensures Valid() && done && table == old(table)
      ensures span == Span(to, old(span.footprint))
      ensures forall i :: 0 <= i < |table| ==>
        table[i].lightSet.Whole()
        == MovedTimes(old(table[i].lightSet.Whole()), old(span.start), to, Occurrences(table, table[i].lightSet))
      ensures Distinct(table) ==> Contents() == ChainMoved(old(Contents()), to)
    {
      ghost var before := Contents().members;
      if to == span.start {
        forall i | 0 <= i < |table|
          ensures table[i].lightSet.Whole() == MovedTimes(before[i], to, to, Occurrences(table, table[i].lightSet))
        {
          MovedTimesNowhere(before[i], to, Occurrences(table, table[i].lightSet));
        }
        return true;
      }
      MoveMembers(to, before);
      if Distinct(table) {
        DistinctMove(table, before, Contents().members, span.start, to);
      }
      span := Span(to, span.footprint);
      return true;
    }

    ghost predicate Has(members: seq<View>)
      reads this, Members()
    {
      |members| == |table| && forall i :: 0 <= i < |table| ==> table[i].lightSet.Whole() == members[i]
    }

    /** The first member that has an answer for the slot. */
    method GetSlotInfo(slotOffset: Word) returns (member: nat, slot: SlotReport)
      requires Valid() && Fits() && AllSearchable(Contents().members)
      ensures FirstAnswer(old(Contents()).members, span.start + slotOffset, member, slot)
      ensures slotOffset >= span.footprint ==> slot.NoSlot?
    {
      ghost var members := Contents().members;
      FittingCovers(span, members);
      if slotOffset >= span.footprint {
        NoneAnswers(span, members, slotOffset);
      }
      if slotOffset > span.footprint {
        return |table|, NoSlot;
      }
      member, slot := Search(slotOffset, members);
    }

    method Search(slotOffset: Word, ghost members: seq<View>) returns (member: nat, slot: SlotReport)
      requires Valid() && Has(members) && CoversAll(span, members) && AllSearchable(members)
      requires slotOffset <= span.footprint
      ensures FirstAnswer(members, span.start + slotOffset, member, slot)
    {
      member := 0;
      while member < |table|
        invariant member <= |table| && Valid() && Has(members)
        invariant NoAnswer(members, span.start + slotOffset, member)
      {
        slot := Ask(table[member].lightSet, slotOffset, members[member]);
        if slot != NoSlot {
          return;
        }
        member := member + 1;
      }
      slot := NoSlot;
    }

    /** One member's turn: it is passed over if the slot is behind it or the offset comes out negative. */
    method Ask(lightSet: LightSet, slotOffset: Word, ghost view: View) returns (slot: SlotReport)
      requires lightSet.Valid() && lightSet.Whole() == view && Searchable(view)
      requires span.Proper() && span.Covers(view.span) && slotOffset <= span.footprint
      ensures slot == Answer(view, span.start + slotOffset)
    {
      var address := span.start + slotOffset;
      var offset := Signed(address - lightSet.span.start);
      MemberAnswers(span, view, slotOffset);
      if lightSet.span.End() <= address || offset < 0 {
        return NoSlot;
      }
      slot := lightSet.GetSlotInfo(Turned(offset));
    }
  }
}
