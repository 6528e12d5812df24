/** DMX to serial: a byte string is sent for a channel whenever its value changes. */
module SerialOutput {
  import opened Dmx

  /** What is sent for each of the 256 values of a channel; empty where nothing is configured. */
  type Table = t: seq<seq<Slot>> | |t| == 256 witness seq(256, _ => [])

  /** The configured channels, ascending, each with its table. */
  datatype Setup = Setup(channels: seq<nat>, tables: seq<Table>)

  ghost predicate ValidSetup(s: Setup) {
    && |s.channels| == |s.tables|
    && (forall i :: 0 <= i < |s.channels| ==> 2 <= s.channels[i] <= UNIVERSE_SIZE)
    && forall i, j :: 0 <= i < j < |s.channels| ==> s.channels[i] < s.channels[j]
  }

  // ---- the reference: what should be sent for a history of frames

  /** The value last seen on a channel: that of the last frame long enough to hold it. */
  function LastSeen(history: seq<seq<Slot>>, channel: nat): Slot
    requires channel >= 1
    decreases |history|
  {
    if history == [] then 0
    else
      var last := history[|history| - 1];
      if channel <= |last| then last[channel - 1] else LastSeen(history[..|history| - 1], channel)
  }

  /** What a frame makes one channel send, given the value seen before. */
  function Reaction(channel: nat, table: Table, seen: Slot, frame: seq<Slot>): seq<seq<Slot>>
    requires channel >= 1
  {
    if channel <= |frame| && frame[channel - 1] != seen && table[frame[channel - 1]] != []
    then [table[frame[channel - 1]]] else []
  }

  /** What a frame sends after a history, channels from number i on, in ascending order. */
  function Expected(s: Setup, history: seq<seq<Slot>>, frame: seq<Slot>, i: nat): seq<seq<Slot>>
    requires ValidSetup(s) && i <= |s.channels|
    decreases |s.channels| - i
  {
    if i == |s.channels| then []
    else Reaction(s.channels[i], s.tables[i], LastSeen(history, s.channels[i]), frame) + Expected(s, history, frame, i + 1)
  }

  function ExpectedOfAll(s: Setup, history: seq<seq<Slot>>): seq<seq<Slot>>
    requires ValidSetup(s)
    decreases |history|
  {
    if history == [] then []
    else
      var n := |history| - 1;
      ExpectedOfAll(s, history[..n]) + Expected(s, history[..n], history[n], 0)
  }

  // ---- the filter as the program runs it

  /** One channel's turn: the remembered value is replaced if it differs. */
  function Turn(s: Setup, shown: Universe, frame: seq<Slot>, i: nat): (Universe, seq<seq<Slot>>)
    requires ValidSetup(s) && i < |s.channels| && |frame| <= UNIVERSE_SIZE
  {
    var offset := s.channels[i] - 1;
    if offset >= |frame| || shown[offset] == frame[offset] then (shown, [])
    else (shown[offset := frame[offset]], if s.tables[i][frame[offset]] == [] then [] else [s.tables[i][frame[offset]]])
  }

  function Turns(s: Setup, shown: Universe, frame: seq<Slot>, i: nat): (Universe, seq<seq<Slot>>)
    requires ValidSetup(s) && i <= |s.channels| && |frame| <= UNIVERSE_SIZE
    decreases |s.channels| - i
  {
    if i == |s.channels| then (shown, [])
    else
      var (next, sent) := Turn(s, shown, frame, i);
      var (last, more) := Turns(s, next, frame, i + 1);
      (last, sent + more)
  }

  /** From channel number i on, the remembered values are those last seen. */
  ghost predicate Remembers(s: Setup, shown: Universe, history: seq<seq<Slot>>, from: nat, to: nat)
    requires ValidSetup(s)
  {
    forall i :: from <= i < to && i < |s.channels| ==> shown[s.channels[i] - 1] == LastSeen(history, s.channels[i])
  }

  lemma {:induction false} TurnsSendExpected(s: Setup, shown: Universe, history: seq<seq<Slot>>, frame: seq<Slot>, i: nat)
    requires ValidSetup(s) && i <= |s.channels| && |frame| <= UNIVERSE_SIZE
    requires Remembers(s, shown, history, i, |s.channels|)
    requires Remembers(s, shown, history + [frame], 0, i)
    ensures Turns(s, shown, frame, i).1 == Expected(s, history, frame, i)
    ensures Remembers(s, Turns(s, shown, frame, i).0, history + [frame], 0, |s.channels|)
    decreases |s.channels| - i
  {
    assert (history + [frame])[..|history|] == history;
    if i < |s.channels| {
      var next := Turn(s, shown, frame, i).0;
      TurnsSendExpected(s, next, history, frame, i + 1);
    }
  }

  /** The program: an all-zero memory, and one update for each frame. */
  function RunOf(s: Setup, frames: seq<seq<Slot>>): (Universe, seq<seq<Slot>>)
    requires ValidSetup(s) && forall f :: f in frames ==> |f| <= UNIVERSE_SIZE
    decreases |frames|
  {
    if frames == [] then (seq(UNIVERSE_SIZE, _ => 0), [])
    else
      var n := |frames| - 1;
      var (shown, sent) := RunOf(s, frames[..n]);
      var (next, more) := Turns(s, shown, frames[n], 0);
      (next, sent + more)
  }

  /** Over any sequence of frames of any lengths, what is sent is exactly, in order, the
      non-empty strings of the configured channels whose value differs from the last one seen
      on them, ascending by channel within a frame. */
  lemma {:induction false} RunSendsExpected(s: Setup, frames: seq<seq<Slot>>)
    requires ValidSetup(s) && forall f :: f in frames ==> |f| <= UNIVERSE_SIZE
    ensures RunOf(s, frames).1 == ExpectedOfAll(s, frames)
    ensures Remembers(s, RunOf(s, frames).0, frames, 0, |s.channels|)
    decreases |frames|
  {
    if frames != [] {
      var n := |frames| - 1;
      RunSendsExpected(s, frames[..n]);
      assert frames[..n] + [frames[n]] == frames;
      TurnsSendExpected(s, RunOf(s, frames[..n]).0, frames[..n], frames[n], 0);
    }
  }

  /** Repeating the last frame sends nothing. */
  lemma {:induction false} RepeatSendsNothing(s: Setup, history: seq<seq<Slot>>, frame: seq<Slot>, i: nat)
    requires ValidSetup(s) && i <= |s.channels|
    ensures Expected(s, history + [frame], frame, i) == []
    decreases |s.channels| - i
  {
    if i < |s.channels| {
      assert (history + [frame])[|history|] == frame;
      RepeatSendsNothing(s, history, frame, i + 1);
    }
  }

  // ---- updates at once and on synchronisation

  datatype Call = Data(frame: seq<Slot>, doUpdate: bool) | Sync

  /** What is remembered of the channels, the frame kept for the next synchronisation, and what has been sent. */
  datatype State = State(shown: Universe, kept: seq<Slot>, sent: seq<seq<Slot>>)

  function Updated(s: Setup, state: State, frame: seq<Slot>): State
    requires ValidSetup(s) && |frame| <= UNIVERSE_SIZE
  {
    var (shown, more) := Turns(s, state.shown, frame, 0);
    State(shown, state.kept, state.sent + more)
  }

  function Step(s: Setup, state: State, call: Call): State
    requires ValidSetup(s) && |if call.Data? then call.frame else state.kept| <= UNIVERSE_SIZE
  {
    if call.Sync? then Updated(s, state, state.kept)
    else if call.doUpdate then Updated(s, state, call.frame)
    else State(state.shown, call.frame, state.sent)
  }

  /** The frame that calls leave kept. */
  function Kept(kept: seq<Slot>, calls: seq<Call>): seq<Slot> {
    if calls == [] then kept
    else
      var last := calls[|calls| - 1];
      if last.Data? && !last.doUpdate then last.frame else Kept(kept, calls[..|calls| - 1])
  }

  /** The frames that calls update from, in order. */
  function Updates(kept: seq<Slot>, calls: seq<Call>): seq<seq<Slot>> {
    if calls == [] then []
    else
      var front, last := calls[..|calls| - 1], calls[|calls| - 1];
      Updates(kept, front) + if last.Sync? then [Kept(kept, front)] else if last.doUpdate then [last.frame] else []
  }

  /** No call passes more than a universe, or updates from more. */
  predicate AllFit(kept: seq<Slot>, calls: seq<Call>) {
    && (forall c :: c in calls && c.Data? ==> |c.frame| <= UNIVERSE_SIZE)
    && forall f :: f in Updates(kept, calls) ==> |f| <= UNIVERSE_SIZE
  }

  lemma FitsAtTheEnd(kept: seq<Slot>, calls: seq<Call>)
    requires calls != [] && AllFit(kept, calls)
    ensures var n := |calls| - 1;
      AllFit(kept, calls[..n]) && |if calls[n].Data? then calls[n].frame else Kept(kept, calls[..n])| <= UNIVERSE_SIZE
  {
  }

  /** The program over any calls, whatever its memory for the kept frame holds at first. */
  function RunOfCalls(s: Setup, kept: seq<Slot>, calls: seq<Call>): (state: State)
    requires ValidSetup(s) && AllFit(kept, calls)
    ensures state.kept == Kept(kept, calls)
    decreases |calls|
  {
    if calls == [] then State(seq(UNIVERSE_SIZE, _ => 0), kept, [])
    else
      FitsAtTheEnd(kept, calls);
      Step(s, RunOfCalls(s, kept, calls[..|calls| - 1]), calls[|calls| - 1])
  }

  lemma RunOfOneMore(s: Setup, frames: seq<seq<Slot>>, frame: seq<Slot>)
    requires ValidSetup(s) && |frame| <= UNIVERSE_SIZE && forall f :: f in frames ==> |f| <= UNIVERSE_SIZE
    ensures var (shown, sent) := RunOf(s, frames); var (next, more) := Turns(s, shown, frame, 0);
      RunOf(s, frames + [frame]) == (next, sent + more)
  {
    assert (frames + [frame])[..|frames|] == frames;
  }

  lemma {:induction false} CallsUpdate(s: Setup, kept: seq<Slot>, calls: seq<Call>)
    requires ValidSetup(s) && AllFit(kept, calls)
    ensures var state := RunOfCalls(s, kept, calls); (state.shown, state.sent) == RunOf(s, Updates(kept, calls))
    decreases |calls|
  {
    if calls != [] {
      var n := |calls| - 1;
      FitsAtTheEnd(kept, calls);
      CallsUpdate(s, kept, calls[..n]);
      if calls[n].Sync? {
        RunOfOneMore(s, Updates(kept, calls[..n]), Kept(kept, calls[..n]));
      } else if calls[n].doUpdate {
        RunOfOneMore(s, Updates(kept, calls[..n]), calls[n].frame);
      } else {
        assert Updates(kept, calls) == Updates(kept, calls[..n]);
      }
    }
  }

  /** Over calls with and without updating, and synchronisations, in any order, what is sent is what the
      reference asks for the frames that the calls update from. */
  lemma CallsSendExpected(s: Setup, kept: seq<Slot>, calls: seq<Call>)
    requires ValidSetup(s) && AllFit(kept, calls)
    ensures RunOfCalls(s, kept, calls).sent == ExpectedOfAll(s, Updates(kept, calls))
  {
    CallsUpdate(s, kept, calls);
    RunSendsExpected(s, Updates(kept, calls));
  }

  predicate Keeps(call: Call) {
    call.Data? && !call.doUpdate
  }

  /** Every synchronisation comes after a call that keeps a frame. */
  ghost predicate KeepsFirst(calls: seq<Call>) {
    forall i :: 0 <= i < |calls| && calls[i].Sync? ==> exists j :: 0 <= j < i && Keeps(calls[j])
  }

  lemma {:induction false} KeptIff(calls: seq<Call>, kept: seq<Slot>, other: seq<Slot>)
    requires kept != other
    ensures Kept(kept, calls) == Kept(other, calls) <==> exists j :: 0 <= j < |calls| && Keeps(calls[j])
    ensures Kept(kept, calls) != Kept(other, calls) ==> Kept(kept, calls) == kept && Kept(other, calls) == other
  {
    if calls != [] {
      var n := |calls| - 1;
      KeptIff(calls[..n], kept, other);
      if exists j :: 0 <= j < n && Keeps(calls[j]) {
        var j :| 0 <= j < n && Keeps(calls[j]);
        assert Keeps(calls[..n][j]);
      }
    }
  }

  lemma {:induction false} UpdatesIff(calls: seq<Call>, kept: seq<Slot>, other: seq<Slot>)
    requires kept != other
    ensures Updates(kept, calls) == Updates(other, calls) <==> KeepsFirst(calls)
    ensures |Updates(kept, calls)| == |Updates(other, calls)|
  {
    if calls != [] {
      var n := |calls| - 1;
      UpdatesIff(calls[..n], kept, other);
      KeptIff(calls[..n], kept, other);
      KeepsFirstSplit(calls);
      SameUpdates(calls, kept, other);
    }
  }

  lemma KeepsFirstSplit(calls: seq<Call>)
    requires calls != []
    ensures var n := |calls| - 1;
      KeepsFirst(calls) <==>
        KeepsFirst(calls[..n]) && (calls[n].Sync? ==> exists j :: 0 <= j < n && Keeps(calls[..n][j]))
  {
  }

  lemma SameUpdates(calls: seq<Call>, kept: seq<Slot>, other: seq<Slot>)
    requires calls != [] && var n := |calls| - 1; |Updates(kept, calls[..n])| == |Updates(other, calls[..n])|
    ensures var n := |calls| - 1;
      Updates(kept, calls) == Updates(other, calls) <==>
        && Updates(kept, calls[..n]) == Updates(other, calls[..n])
        && (calls[n].Sync? ==> Kept(kept, calls[..n]) == Kept(other, calls[..n]))
    ensures |Updates(kept, calls)| == |Updates(other, calls)|
  {
    var n := |calls| - 1;
    if calls[n].Sync? {
      AppendedEqualIff(Updates(kept, calls[..n]), Updates(other, calls[..n]), Kept(kept, calls[..n]), Kept(other, calls[..n]));
    } else if calls[n].doUpdate {
      AppendedEqualIff(Updates(kept, calls[..n]), Updates(other, calls[..n]), calls[n].frame, calls[n].frame);
    } else {
      assert Updates(kept, calls) == Updates(kept, calls[..n]) && Updates(other, calls) == Updates(other, calls[..n]);
    }
  }

  lemma AppendedEqualIff<T>(a: seq<T>, b: seq<T>, x: T, y: T)
    requires |a| == |b|
    ensures a + [x] == b + [y] <==> a == b && x == y
  {
    if a + [x] == b + [y] {
      assert a == (a + [x])[..|a|] == (b + [y])[..|b|] == b;
      assert x == (a + [x])[|a|] == (b + [y])[|b|] == y;
    }
  }

  /** The memory for the kept frame is not initialised; which frames are used depends on what it holds exactly
      if some synchronisation comes before the first call that keeps a frame. */
  lemma UninitialisedIff(calls: seq<Call>)
    ensures (forall kept, other :: Updates(kept, calls) == Updates(other, calls)) <==> KeepsFirst(calls)
  {
    UpdatesIff(calls, [], [0]);
    if KeepsFirst(calls) {
      forall kept, other ensures Updates(kept, calls) == Updates(other, calls) {
        if kept != other {
          UpdatesIff(calls, kept, other);
        }
      }
    }
  }

  // ---- the class

  class DmxSerial {
    const setup: Setup
    const dmxData: array<Slot>
    var syncData: seq<Slot>
    var sent: seq<seq<Slot>>

    ghost predicate Valid() {
      ValidSetup(setup) && dmxData.Length == UNIVERSE_SIZE
    }

    ghost function Contents(): State
      requires Valid()
      reads this, dmxData
    {
      State(dmxData[..], syncData, sent)
    }

    /** `memory` is what the frame for synchronisation holds before it is first written. */
    constructor (setup: Setup, memory: seq<Slot>)
      requires ValidSetup(setup)
      ensures Valid() && this.setup == setup && fresh(dmxData)
      ensures Contents() == RunOfCalls(setup, memory, [])
    {
      this.setup := setup;
      dmxData := new Slot[UNIVERSE_SIZE](_ => 0);
      syncData := memory;
      sent := [];
      new;
      assert dmxData[..] == seq(UNIVERSE_SIZE, _ => 0);
    }

    method Update(frame: seq<Slot>)
      requires Valid() && |frame| <= UNIVERSE_SIZE
      modifies dmxData, this`sent
      ensures dmxData[..] == Turns(setup, old(dmxData[..]), frame, 0).0
      ensures sent == old(sent) + Turns(setup, old(dmxData[..]), frame, 0).1
    {
      ghost var all := Turns(setup, dmxData[..], frame, 0);
      for i := 0 to |setup.channels|
        invariant Turns(setup, dmxData[..], frame, i).0 == all.0
        invariant sent + Turns(setup, dmxData[..], frame, i).1 == old(sent) + all.1
      {
        ghost var (next, more) := Turn(setup, dmxData[..], frame, i);
        ghost var rest := Turns(setup, next, frame, i + 1).1;
        assert sent + (more + rest) == (sent + more) + rest;
        var offset := setup.channels[i] - 1;
        if offset < |frame| && dmxData[offset] != frame[offset] {
          dmxData[offset] := frame[offset];
          var bytes := setup.tables[i][dmxData[offset]];
          if bytes != [] {
            sent := sent + [bytes];
          }
        }
        assert dmxData[..] == next;
      }
      assert sent + [] == sent;
    }

    method SetData(frame: seq<Slot>, doUpdate: bool)
      requires Valid() && |frame| <= UNIVERSE_SIZE
      modifies dmxData, this`sent, this`syncData
      ensures Contents() == Step(setup, old(Contents()), Data(frame, doUpdate))
    {
      if doUpdate {
        Update(frame);
        return;
      }
      syncData := frame;
    }

    method Sync()
      requires Valid() && |syncData| <= UNIVERSE_SIZE
      modifies dmxData, this`sent
      ensures Contents() == Step(setup, old(Contents()), Call.Sync)
    {
      Update(syncData);
    }
  }
}
