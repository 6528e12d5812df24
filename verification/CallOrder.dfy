/** The order of the driver calls in which a board handles one frame. */
module CallOrder {
  import opened StepperMotor

  /** The driver calls of a board, each with the number of its motor. */
  datatype Call =
    | BusyRead(motor: nat, busy: bool)
    | Stop(motor: nat)
    | PosRead(motor: nat)
    | Send(motor: nat, dir: Direction, target: nat)

  /** What the first phase asks of one motor, and what the third does. */
  function StopCalls(i: nat, wasBusy: bool): seq<Call> {
    if wasBusy then [BusyRead(i, true), Stop(i)] else [BusyRead(i, false)]
  }

  function SendCalls(i: nat, wasBusy: bool, dir: Direction, target: nat): seq<Call> {
    if wasBusy then [PosRead(i), Send(i, dir, target)] else [Send(i, dir, target)]
  }

  ghost predicate Polls(calls: seq<Call>, i: nat) {
    calls != [] && forall p :: 0 <= p < |calls| ==> calls[p].BusyRead? && calls[p].motor == i
  }

  /** What the second phase asks of one motor. */
  ghost predicate PollsUntilIdle(calls: seq<Call>, i: nat) {
    Polls(calls, i) && !calls[|calls| - 1].busy
  }

  /** The calls of one motor after the other. */
  function Flat(parts: seq<seq<Call>>): seq<Call> {
    if parts == [] then [] else Flat(parts[..|parts| - 1]) + parts[|parts| - 1]
  }

  lemma FlatAppend(log: seq<Call>, parts: seq<seq<Call>>, part: seq<Call>)
    ensures log + Flat(parts) + part == log + Flat(parts + [part])
  {
    assert (parts + [part])[..|parts|] == parts;
  }

  // ---- what a phase looks like

  /** `changed` marks the motors whose window changed. */
  predicate Marked(changed: seq<bool>, k: nat) {
    k < |changed| && changed[k]
  }

  /** First phase: only changed motors are addressed, none is sent anywhere, and exactly those found busy
      are stopped. */
  ghost predicate OnlyStops(calls: seq<Call>, changed: seq<bool>, busy: seq<bool>) {
    && |busy| == |changed|
    && (forall p :: 0 <= p < |calls| ==> Marked(changed, calls[p].motor) && (calls[p].BusyRead? || calls[p].Stop?))
    && forall k: nat :: Marked(changed, k) ==> (Stop(k) in calls <==> busy[k])
  }

  /** From p on all that is heard of a motor is that it is not busy. */
  ghost predicate IdleFrom(calls: seq<Call>, k: nat, p: nat) {
    && p < |calls| && calls[p] == BusyRead(k, false)
    && forall q :: p < q < |calls| ==> !((calls[q].BusyRead? || calls[q].Stop?) && calls[q].motor == k)
  }

  /** Before call s, but after its last stop, a motor was last heard to be not busy. */
  ghost predicate IdleBefore(calls: seq<Call>, k: nat, s: nat) {
    exists p: nat :: p < s && IdleFrom(calls, k, p)
  }

  /** Second phase: changed motors are polled, each until it is not busy. */
  ghost predicate OnlyPolls(calls: seq<Call>, changed: seq<bool>) {
    && (forall p :: 0 <= p < |calls| ==> Marked(changed, calls[p].motor) && calls[p].BusyRead?)
    && forall k: nat :: Marked(changed, k) ==> IdleBefore(calls, k, |calls|)
  }

  ghost predicate SendsAt(calls: seq<Call>, k: nat, target: nat, p: nat) {
    && p < |calls| && calls[p].Send? && calls[p].motor == k && calls[p].target == target
    && forall q :: 0 <= q < |calls| && calls[q].Send? && calls[q].motor == k ==> q == p
  }

  /** A motor is sent to its target, once. */
  ghost predicate SendsOnce(calls: seq<Call>, k: nat, target: nat) {
    exists p: nat :: SendsAt(calls, k, target, p)
  }

  /** Third phase: each changed motor is sent to its target, once, and the position is read of exactly those that
      were found busy. */
  ghost predicate OnlySends(calls: seq<Call>, changed: seq<bool>, busy: seq<bool>, targets: seq<nat>) {
    && |targets| == |changed| == |busy|
    && (forall p :: 0 <= p < |calls| ==> Marked(changed, calls[p].motor) && (calls[p].PosRead? || calls[p].Send?))
    && forall k: nat :: Marked(changed, k) ==> SendsOnce(calls, k, targets[k]) && (PosRead(k) in calls <==> busy[k])
  }

  /** The order of a whole frame: only changed motors are addressed; each is sent to its target, once, and
      stopped, and its position read, exactly if it was found busy; and when any motor is sent, every stop of the frame is behind,
      and every changed motor was last heard, after its stop, to be not busy. */
  ghost predicate StopsWaitsSends(calls: seq<Call>, changed: seq<bool>, busy: seq<bool>, targets: seq<nat>) {
    && |busy| == |targets| == |changed|
    && (forall p :: 0 <= p < |calls| ==> Marked(changed, calls[p].motor))
    && (forall k: nat :: Marked(changed, k) ==> SendsOnce(calls, k, targets[k]) && (Stop(k) in calls <==> busy[k]) && (PosRead(k) in calls <==> busy[k]))
    && forall s :: 0 <= s < |calls| && calls[s].Send? ==>
        && (forall q :: 0 <= q < |calls| && calls[q].Stop? ==> q < s)
        && forall k: nat :: Marked(changed, k) ==> IdleBefore(calls, k, s)
  }

  // ---- the phases, motor by motor

  ghost predicate StopParts(parts: seq<seq<Call>>, changed: seq<bool>, busy: seq<bool>) {
    && |parts| == |changed| == |busy|
    && forall j :: 0 <= j < |parts| ==> parts[j] == if changed[j] then StopCalls(j, busy[j]) else []
  }

  ghost predicate PollParts(parts: seq<seq<Call>>, changed: seq<bool>) {
    && |parts| == |changed|
    && forall j :: 0 <= j < |parts| ==> if changed[j] then PollsUntilIdle(parts[j], j) else parts[j] == []
  }

  ghost predicate SendParts(parts: seq<seq<Call>>, changed: seq<bool>, busy: seq<bool>, dirs: seq<Direction>, targets: seq<nat>) {
    && |parts| == |changed| == |busy| == |dirs| == |targets|
    && forall j :: 0 <= j < |parts| ==> parts[j] == if changed[j] then SendCalls(j, busy[j], dirs[j], targets[j]) else []
  }

  /** All calls so far are of motors before n, which are marked. */
  ghost predicate OfEarlier(calls: seq<Call>, changed: seq<bool>, n: nat) {
    forall p :: 0 <= p < |calls| ==> calls[p].motor < n && Marked(changed, calls[p].motor)
  }

  lemma EarlierStay(calls: seq<Call>, changed: seq<bool>, n: nat)
    requires n < |changed| && forall p :: 0 <= p < |calls| ==> Marked(changed[..n], calls[p].motor)
    ensures OfEarlier(calls, changed, n)
  {
  }

  lemma StopIn(calls: seq<Call>, part: seq<Call>, k: nat)
    ensures Stop(k) in calls + part <==> Stop(k) in calls || Stop(k) in part
    ensures PosRead(k) in calls + part <==> PosRead(k) in calls || PosRead(k) in part
  {
  }

  lemma StopsNext(calls: seq<Call>, n: nat, changed: seq<bool>, busy: seq<bool>)
    requires |busy| == |changed| == n + 1 && OnlyStops(calls, changed[..n], busy[..n])
    ensures OnlyStops(calls + if changed[n] then StopCalls(n, busy[n]) else [], changed, busy)
  {
    var part := if changed[n] then StopCalls(n, busy[n]) else [];
    EarlierStay(calls, changed, n);
    forall k: nat | Marked(changed, k) ensures Stop(k) in calls + part <==> busy[k] {
      StopIn(calls, part, k);
      assert k < n ==> Marked(changed[..n], k) && changed[..n][k] == changed[k] && busy[..n][k] == busy[k];
    }
  }

  lemma {:induction false} StopPhase(parts: seq<seq<Call>>, changed: seq<bool>, busy: seq<bool>)
    requires StopParts(parts, changed, busy)
    ensures OnlyStops(Flat(parts), changed, busy)
  {
    if parts != [] {
      var n := |parts| - 1;
      StopPhase(parts[..n], changed[..n], busy[..n]);
      StopsNext(Flat(parts[..n]), n, changed, busy);
    }
  }

  lemma IdleStays(calls: seq<Call>, part: seq<Call>, k: nat)
    requires IdleBefore(calls, k, |calls|) && forall p :: 0 <= p < |part| ==> part[p].motor != k
    ensures IdleBefore(calls + part, k, |calls + part|)
  {
    var p: nat :| p < |calls| && IdleFrom(calls, k, p);
    assert IdleFrom(calls + part, k, p);
  }

  lemma IdleAtTheEnd(calls: seq<Call>, part: seq<Call>, k: nat)
    requires PollsUntilIdle(part, k)
    ensures IdleBefore(calls + part, k, |calls + part|)
  {
    assert IdleFrom(calls + part, k, |calls + part| - 1);
  }

  lemma PollsNext(calls: seq<Call>, part: seq<Call>, n: nat, changed: seq<bool>)
    requires |changed| == n + 1 && OnlyPolls(calls, changed[..n])
    requires if changed[n] then PollsUntilIdle(part, n) else part == []
    ensures OnlyPolls(calls + part, changed)
  {
    EarlierStay(calls, changed, n);
    forall k: nat | Marked(changed, k) ensures IdleBefore(calls + part, k, |calls + part|) {
      if k < n {
        assert Marked(changed[..n], k);
        IdleStays(calls, part, k);
      } else {
        IdleAtTheEnd(calls, part, k);
      }
    }
  }

  lemma {:induction false} PollPhase(parts: seq<seq<Call>>, changed: seq<bool>)
    requires PollParts(parts, changed)
    ensures OnlyPolls(Flat(parts), changed)
  {
    if parts != [] {
      var n := |parts| - 1;
      PollPhase(parts[..n], changed[..n]);
      PollsNext(Flat(parts[..n]), parts[n], n, changed);
    }
  }

  lemma SendsStay(calls: seq<Call>, more: seq<Call>, k: nat, target: nat)
    requires SendsOnce(calls, k, target) && forall p :: 0 <= p < |more| ==> more[p].motor != k
    ensures SendsOnce(calls + more, k, target)
  {
    var p: nat :| SendsAt(calls, k, target, p);
    assert SendsAt(calls + more, k, target, p);
  }

  lemma SendsLast(calls: seq<Call>, k: nat, wasBusy: bool, dir: Direction, target: nat)
    requires forall p :: 0 <= p < |calls| ==> calls[p].motor != k
    ensures SendsOnce(calls + SendCalls(k, wasBusy, dir, target), k, target)
  {
    var all := calls + SendCalls(k, wasBusy, dir, target);
    assert SendsAt(all, k, target, |all| - 1);
  }

  lemma SendsNext(calls: seq<Call>, n: nat, changed: seq<bool>, busy: seq<bool>, dirs: seq<Direction>, targets: seq<nat>)
    requires |changed| == |busy| == |dirs| == |targets| == n + 1 && OnlySends(calls, changed[..n], busy[..n], targets[..n])
    ensures OnlySends(calls + if changed[n] then SendCalls(n, busy[n], dirs[n], targets[n]) else [], changed, busy, targets)
  {
    var part := if changed[n] then SendCalls(n, busy[n], dirs[n], targets[n]) else [];
    EarlierStay(calls, changed, n);
    forall k: nat | Marked(changed, k)
      ensures SendsOnce(calls + part, k, targets[k]) && (PosRead(k) in calls + part <==> busy[k])
    {
      StopIn(calls, part, k);
      if k < n {
        assert Marked(changed[..n], k) && SendsOnce(calls, k, targets[..n][k]) && busy[..n][k] == busy[k];
        SendsStay(calls, part, k, targets[k]);
      } else {
        SendsLast(calls, n, busy[n], dirs[n], targets[n]);
      }
    }
  }

  lemma {:induction false} SendPhase(parts: seq<seq<Call>>, changed: seq<bool>, busy: seq<bool>, dirs: seq<Direction>,
                                     targets: seq<nat>)
    requires SendParts(parts, changed, busy, dirs, targets)
    ensures OnlySends(Flat(parts), changed, busy, targets)
  {
    if parts != [] {
      var n := |parts| - 1;
      SendPhase(parts[..n], changed[..n], busy[..n], dirs[..n], targets[..n]);
      SendsNext(Flat(parts[..n]), n, changed, busy, dirs, targets);
    }
  }

  /** The three phases one after the other make the order of a frame. */
  lemma PhasesInOrder(stops: seq<Call>, polls: seq<Call>, sends: seq<Call>,
                      changed: seq<bool>, busy: seq<bool>, targets: seq<nat>)
    requires OnlyStops(stops, changed, busy) && OnlyPolls(polls, changed) && OnlySends(sends, changed, busy, targets)
    ensures StopsWaitsSends(stops + polls + sends, changed, busy, targets)
  {
    var all, n := stops + polls + sends, |stops| + |polls|;
    forall k: nat | Marked(changed, k)
      ensures SendsOnce(all, k, targets[k]) && IdleBefore(all, k, n)
      ensures (Stop(k) in all <==> busy[k]) && (PosRead(k) in all <==> busy[k])
    {
      SentInOrder(stops + polls, sends, k, targets[k]);
      IdleInOrder(stops, polls, sends, k);
      assert Stop(k) in all <==> Stop(k) in stops;
      assert PosRead(k) in all <==> PosRead(k) in sends;
    }
    forall s | 0 <= s < |all| && all[s].Send?
      ensures forall q :: 0 <= q < |all| && all[q].Stop? ==> q < s
      ensures forall k: nat :: Marked(changed, k) ==> IdleBefore(all, k, s)
    {
      assert s >= n;
      forall k: nat | Marked(changed, k) ensures IdleBefore(all, k, s) {
        var p: nat :| p < n && IdleFrom(all, k, p);
      }
    }
  }

  lemma FrameInOrder(stops: seq<seq<Call>>, polls: seq<seq<Call>>, sends: seq<seq<Call>>,
                     changed: seq<bool>, busy: seq<bool>, dirs: seq<Direction>, targets: seq<nat>)
    requires StopParts(stops, changed, busy) && PollParts(polls, changed)
    requires SendParts(sends, changed, busy, dirs, targets)
    ensures StopsWaitsSends(Flat(stops) + Flat(polls) + Flat(sends), changed, busy, targets)
  {
    StopPhase(stops, changed, busy);
    PollPhase(polls, changed);
    SendPhase(sends, changed, busy, dirs, targets);
    PhasesInOrder(Flat(stops), Flat(polls), Flat(sends), changed, busy, targets);
  }

  lemma SentInOrder(before: seq<Call>, sends: seq<Call>, k: nat, target: nat)
    requires SendsOnce(sends, k, target) && forall p :: 0 <= p < |before| ==> !before[p].Send?
    ensures SendsOnce(before + sends, k, target)
  {
    var p: nat :| SendsAt(sends, k, target, p);
    assert SendsAt(before + sends, k, target, |before| + p);
  }

  lemma IdleInOrder(stops: seq<Call>, polls: seq<Call>, sends: seq<Call>, k: nat)
    requires IdleBefore(polls, k, |polls|) && forall p :: 0 <= p < |sends| ==> sends[p].PosRead? || sends[p].Send?
    ensures IdleBefore(stops + polls + sends, k, |stops| + |polls|)
  {
    var p: nat :| p < |polls| && IdleFrom(polls, k, p);
    assert IdleFrom(stops + polls + sends, k, |stops| + p);
  }
}
