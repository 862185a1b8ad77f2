/** What every run of the start-up handshake satisfies, for all schedules and all messages. */
module HandshakeRuns {
  import opened Wrappers
  import opened Handshake

  lemma {:induction false} ExecKeepsInv(s: State, owner: Option<nat>, events: seq<Event>) returns (owner': Option<nat>)
    requires InvWith(s, owner)
    ensures InvWith(Exec(s, events), owner')
    decreases |events|
  {
    if events == [] {
      owner' := owner;
    } else {
      ApplyKeepsInv(s, owner, events[0]);
      owner' := ExecKeepsInv(Apply(s, events[0]), NextOwner(s, owner, events[0]), events[1..]);
    }
  }

  lemma Reachable(events: seq<Event>) returns (owner: Option<nat>)
    ensures InvWith(Exec(INITIAL, events), owner)
  {
    assert InvWith(INITIAL, None);
    owner := ExecKeepsInv(INITIAL, None, events);
  }

  lemma {:induction false} ExecAppend(s: State, before: seq<Event>, after: seq<Event>)
    ensures Exec(s, before + after) == Exec(Exec(s, before), after)
    decreases |before|
  {
    if before == [] {
      assert before + after == after;
    } else {
      assert (before + after)[1..] == before[1..] + after;
      ExecAppend(Apply(s, before[0]), before[1..], after);
    }
  }

  // ----- Readiness -----

  /** A ready worker has published its handler and handed that same handler to its creator;
      no ping is ACKed before that, and readiness is reported at most once, after an ACK. */
  lemma ReadyMeansPublished(events: seq<Event>)
    ensures var s := Exec(INITIAL, events);
            && (s.cells.ready ==> s.cells.handlerCell.Some? && !s.cells.handlerTx &&
                                  s.history.sends == [s.cells.handlerCell.value])
            && (s.history.acks > 0 ==> s.cells.ready)
            && s.history.reports <= 1
            && (s.history.reports == 1 <==> !s.cells.layoutReadyTx)
            && (s.history.reports == 1 ==> s.history.acks > 0)
  {
    var owner := Reachable(events);
  }

  /** Allocation starts at most once; the cell is written at most once, and only with the
      handler the creator gets; the "already consumed" branch is never taken. */
  lemma SingleFlight(events: seq<Event>)
    ensures var s := Exec(INITIAL, events);
            && |s.history.allocations| <= 1
            && |s.history.installs| <= 1
            && s.history.sends <= s.history.installs
            && s.cells.handlerCell == (if s.history.installs == [] then None else Some(s.history.installs[0]))
            && s.cells.handlerTx == (s.history.sends == [])
            && (forall i :: 0 <= i < |s.tasks| ==> s.tasks[i] != Done(LayoutConsumed))
  {
    var owner := Reachable(events);
  }

  /** Every transfer that reaches a handler reaches the one installed handler. */
  lemma TransfersAgree(events: seq<Event>, i: nat, handler: Handler)
    requires i < |Exec(INITIAL, events).tasks|
    requires Exec(INITIAL, events).tasks[i] == Done(Dispatched(handler))
    ensures var h := Exec(INITIAL, events).history;
            h.installs == [handler] && (h.sends == [] || h.sends == [handler])
  {
    var owner := Reachable(events);
    var s := Exec(INITIAL, events);
    assert TaskOk(s.cells, s.tasks[i]);
  }

  predicate Extends(s: State, s': State) {
    && Grows(s.cells, s'.cells)
    && (s.cells.started ==> s'.cells.started)
    && s.history.allocations <= s'.history.allocations
    && s.history.acks <= s'.history.acks
    && |s.tasks| <= |s'.tasks|
  }

  /** Finished tasks stay finished; and once the cell is filled no task ends in NotReady any more. */
  ghost predicate EndsKept(s: State, s': State) {
    |s.tasks| <= |s'.tasks| &&
    (forall i :: 0 <= i < |s.tasks| && s.tasks[i].Done? ==> s'.tasks[i] == s.tasks[i]) &&
    (s.cells.handlerCell.Some? ==>
       forall i :: 0 <= i < |s'.tasks| && s'.tasks[i] == Done(NotReady) ==> i < |s.tasks| && s.tasks[i] == Done(NotReady))
  }

  lemma ApplyExtends(s: State, owner: Option<nat>, e: Event)
    requires InvWith(s, owner)
    ensures Extends(s, Apply(s, e)) && EndsKept(s, Apply(s, e))
  {
    if e.Advance? && e.task < |s.tasks| {
      assert Owns(s.tasks[e.task]) <==> owner == Some(e.task);
    }
  }

  lemma {:induction false} ExecExtends(s: State, owner: Option<nat>, events: seq<Event>)
    requires InvWith(s, owner)
    ensures Extends(s, Exec(s, events)) && EndsKept(s, Exec(s, events))
    decreases |events|
  {
    if events != [] {
      var s1 := Apply(s, events[0]);
      ApplyExtends(s, owner, events[0]);
      ApplyKeepsInv(s, owner, events[0]);
      ExecExtends(s1, NextOwner(s, owner, events[0]), events[1..]);
    }
  }

  /** Once any ping has been ACKed, no transfer, early or late, newly fails with "not ready
      yet"; and one that reads the cell now is dispatched to the handler the creator was given. */
  lemma NoTransferFailsAfterAck(before: seq<Event>, after: seq<Event>)
    requires Exec(INITIAL, before).history.acks > 0
    ensures var s, s' := Exec(INITIAL, before), Exec(INITIAL, before + after);
            && |s'.history.sends| == 1
            && (forall i :: 0 <= i < |s'.tasks| && s'.tasks[i] == Done(NotReady) ==>
                              i < |s.tasks| && s.tasks[i] == Done(NotReady))
            && (forall i, o :: 0 <= i < |s'.tasks| && s'.tasks[i] == TransferRead ==>
                                 Step(s', i, o).tasks[i] == Done(Dispatched(s'.history.sends[0])))
  {
    var owner := Reachable(before);
    ExecAppend(INITIAL, before, after);
    ExecExtends(Exec(INITIAL, before), owner, after);
    ReadyMeansPublished(before + after);
    var owner' := Reachable(before + after);
  }

  // ----- A failed allocation -----

  predicate FailedForGood(s: State, i: nat) {
    i < |s.tasks| && s.tasks[i] == Done(AllocationFailed)
  }

  /** There is no retry: after a failed allocation, in every continuation, no handler is ever
      installed or sent, no ping is ever ACKed, readiness is never reported, and no second
      allocation starts, however many well-formed leader messages follow. */
  lemma FailedAllocationIsFinal(before: seq<Event>, after: seq<Event>, i: nat)
    requires FailedForGood(Exec(INITIAL, before), i)
    ensures var s := Exec(INITIAL, before + after);
            && !s.cells.ready && s.cells.handlerCell == None && s.cells.layoutReadyTx
            && s.history.acks == 0 && s.history.reports == 0 && s.history.sends == []
            && s.history.allocations == Exec(INITIAL, before).history.allocations
  {
    var s := Exec(INITIAL, before);
    var owner := Reachable(before);
    ExecAppend(INITIAL, before, after);
    ExecExtends(s, owner, after);
    var owner' := Reachable(before + after);
    var s' := Exec(INITIAL, before + after);
    assert s'.tasks[i] == Done(AllocationFailed);
    assert Owns(s'.tasks[i]);
  }

  // ----- A bound on state changes -----

  function Bit(b: bool): nat { if b then 1 else 0 }

  /** One unit for each of the six cells that has not yet made its one move. */
  function Remaining(c: Cells): nat {
    Bit(!c.started) + Bit(c.deviceLayout) + Bit(c.handlerCell.None?) + Bit(c.handlerTx) + Bit(!c.ready) + Bit(c.layoutReadyTx)
  }

  /** The number of steps of a run that change a shared cell. */
  function Changes(s: State, events: seq<Event>): nat
    decreases |events|
  {
    if events == [] then 0
    else Bit(Apply(s, events[0]).cells != s.cells) + Changes(Apply(s, events[0]), events[1..])
  }

  lemma ChangeCostsOne(s: State, owner: Option<nat>, e: Event)
    requires InvWith(s, owner)
    ensures Remaining(s.cells) == Bit(Apply(s, e).cells != s.cells) + Remaining(Apply(s, e).cells)
  {
    if e.Advance? && e.task < |s.tasks| {
      assert Owns(s.tasks[e.task]) <==> owner == Some(e.task);
    }
  }

  /** The measure falls by exactly one at each state-changing step and never otherwise, so a run
      of any length over any number of messages changes the shared state at most six times. */
  lemma {:induction false} ChangesAreBounded(s: State, owner: Option<nat>, events: seq<Event>)
    requires InvWith(s, owner)
    ensures Changes(s, events) + Remaining(Exec(s, events).cells) == Remaining(s.cells) <= 6
    decreases |events|
  {
    if events != [] {
      ChangeCostsOne(s, owner, events[0]);
      ApplyKeepsInv(s, owner, events[0]);
      ChangesAreBounded(Apply(s, events[0]), NextOwner(s, owner, events[0]), events[1..]);
    }
  }

  // ----- Malformed messages -----

  predicate Malformed(e: Event) {
    e.Arrive? && e.message.LeaderMessage? ==> !WellFormed(e.message.frames)
  }

  /** No task that could reach the compare-exchange. */
  predicate Harmless(t: Task) {
    match t
    case LeaderAck(frames) => !WellFormed(frames)
    case LeaderValidate(frames) => !WellFormed(frames)
    case PingCheck => true
    case TransferRead => true
    case Done(end) => end == BadPayload || end == PingDeferred || end == NotReady
    case _ => false
  }

  lemma {:induction false} MalformedRun(s: State, events: seq<Event>)
    requires s.cells == INITIAL.cells
    requires forall i :: 0 <= i < |s.tasks| ==> Harmless(s.tasks[i])
    requires forall k :: 0 <= k < |events| ==> Malformed(events[k])
    ensures var s' := Exec(s, events);
            && s'.cells == s.cells && s'.history == s.history
            && forall i :: 0 <= i < |s'.tasks| ==> Harmless(s'.tasks[i])
    decreases |events|
  {
    if events != [] {
      var s1 := Apply(s, events[0]);
      forall i | 0 <= i < |s1.tasks| ensures Harmless(s1.tasks[i]) {
        assert i < |s.tasks| ==> Harmless(s.tasks[i]);
        assert Malformed(events[0]);
      }
      if events[0].Advance? && events[0].task < |s.tasks| {
        assert Harmless(s.tasks[events[0].task]);
      }
      MalformedRun(s1, events[1..]);
    }
  }

  /** The schedule that takes one leader message through its four steps. */
  function LeaderSchedule(frames: seq<Frame>, i: nat, o: Outcome): seq<Event> {
    [Arrive(LeaderMessage(frames)), Advance(i, o), Advance(i, o), Advance(i, o), Advance(i, o)]
  }

  /** The schedule that takes a spawned allocation to its end. */
  function AllocationSchedule(i: nat, o: Outcome): seq<Event> {
    [Advance(i, o), Advance(i, o), Advance(i, o), Advance(i, o)]
  }

  lemma LeaderScheduleAllocates(s: State, frames: seq<Frame>, o: Outcome)
    requires !s.cells.started && s.cells.deviceLayout && WellFormed(frames)
    ensures var n := |s.tasks|;
            Exec(s, LeaderSchedule(frames, n, o)) ==
            State(s.cells.(started := true, deviceLayout := false),
                  s.history.(allocations := s.history.allocations + [frames[0].meta]),
                  s.tasks + [Done(Spawned), Allocate(frames[0].meta)])
  {
    var n, meta := |s.tasks|, frames[0].meta;
    var e := Advance(n, o);
    var s1 := s.(tasks := s.tasks + [LeaderAck(frames)]);
    var s2 := s.(tasks := s.tasks + [LeaderValidate(frames)]);
    var s3 := s.(tasks := s.tasks + [LeaderCompareExchange(meta)]);
    var s4 := s.(cells := s.cells.(started := true), tasks := s.tasks + [LeaderTakeLayout(meta)]);
    assert Apply(s, Arrive(LeaderMessage(frames))) == s1;
    assert Apply(s1, e) == s2;
    assert Apply(s2, e) == s3;
    assert Apply(s3, e) == s4;
    var s5 := Apply(s4, e);
    assert s5.tasks == s.tasks + [Done(Spawned), Allocate(meta)];
    Unroll(s, Arrive(LeaderMessage(frames)), [e, e, e, e]);
    Unroll(s1, e, [e, e, e]);
    Unroll(s2, e, [e, e]);
    Unroll(s3, e, [e]);
    Unroll(s4, e, []);
  }

  lemma Unroll(s: State, e: Event, rest: seq<Event>)
    ensures Exec(s, [e] + rest) == Exec(Apply(s, e), rest)
    ensures Exec(s, []) == s
  {
    assert ([e] + rest)[1..] == rest;
  }

  lemma AllocationSchedulePublishes(s: State, i: nat, o: Outcome, h: Handler)
    requires i < |s.tasks| && s.tasks[i].Allocate? && s.cells.handlerTx && o.allocation == Some(h)
    ensures var s' := Exec(s, AllocationSchedule(i, o));
            && s'.cells == s.cells.(handlerCell := Some(h), handlerTx := false, ready := true)
            && s'.history.installs == s.history.installs + [h]
            && s'.history.sends == s.history.sends + [h]
  {
    var e := Advance(i, o);
    var s1 := Apply(s, e);
    var s2 := Apply(s1, e);
    var s3 := Apply(s2, e);
    assert s1.tasks[i] == Install(h);
    assert s2.tasks[i] == SendHandler(h);
    assert s3.tasks[i] == MarkReady(h);
    Unroll(s, e, [e, e, e]);
    Unroll(s1, e, [e, e]);
    Unroll(s2, e, [e]);
    Unroll(s3, e, []);
  }

  /** Malformed leader messages, pings and transfers in any number and order change nothing;
      the next well-formed message still wins the compare-exchange, and if its allocation
      succeeds the worker becomes ready with that handler. */
  lemma WellFormedMessageStillWins(noise: seq<Event>, frames: seq<Frame>, o: Outcome, h: Handler)
    requires forall k :: 0 <= k < |noise| ==> Malformed(noise[k])
    requires WellFormed(frames) && o.allocation == Some(h)
    ensures var s := Exec(INITIAL, noise);
            var n := |s.tasks|;
            var started := Exec(INITIAL, noise + LeaderSchedule(frames, n, o));
            var s' := Exec(started, AllocationSchedule(n + 1, o));
            && s.cells == INITIAL.cells && s.history == INITIAL.history
            && started.history.allocations == [frames[0].meta]
            && s'.cells == Cells(true, false, Some(h), false, true, true)
            && s'.history.sends == [h]
  {
    MalformedRun(INITIAL, noise);
    var s := Exec(INITIAL, noise);
    LeaderScheduleAllocates(s, frames, o);
    ExecAppend(INITIAL, noise, LeaderSchedule(frames, |s.tasks|, o));
    var started := Exec(s, LeaderSchedule(frames, |s.tasks|, o));
    AllocationSchedulePublishes(started, |s.tasks| + 1, o, h);
  }

  // ----- Every message is dealt with -----

  /** An upper bound on the steps a task, and what it may spawn, still takes. */
  function StepsLeft(t: Task): nat {
    match t
    case LeaderAck(_) => 8
    case LeaderValidate(_) => 7
    case LeaderCompareExchange(_) => 6
    case LeaderTakeLayout(_) => 5
    case Allocate(_) => 4
    case Install(_) => 3
    case SendHandler(_) => 2
    case MarkReady(_) => 1
    case PingCheck => 3
    case PingAck => 2
    case PingReport => 1
    case TransferRead => 1
    case Done(_) => 0
  }

  function Work(tasks: seq<Task>): nat {
    if tasks == [] then 0 else StepsLeft(tasks[0]) + Work(tasks[1..])
  }

  lemma {:induction false} WorkAppend(a: seq<Task>, b: seq<Task>)
    ensures Work(a + b) == Work(a) + Work(b)
  {
    if a == [] {
      assert a + b == b;
    } else {
      assert (a + b)[1..] == a[1..] + b;
      WorkAppend(a[1..], b);
    }
  }

  lemma WorkUpdate(tasks: seq<Task>, i: nat, t: Task)
    requires i < |tasks|
    ensures Work(tasks[i := t]) + StepsLeft(tasks[i]) == Work(tasks) + StepsLeft(t)
  {
    assert tasks == tasks[..i] + ([tasks[i]] + tasks[i + 1..]);
    assert tasks[i := t] == tasks[..i] + ([t] + tasks[i + 1..]);
    WorkAppend(tasks[..i], [tasks[i]] + tasks[i + 1..]);
    WorkAppend(tasks[..i], [t] + tasks[i + 1..]);
    WorkAppend([tasks[i]], tasks[i + 1..]);
    WorkAppend([t], tasks[i + 1..]);
  }

  lemma WorkOfOne(t: Task)
    ensures Work([t]) == StepsLeft(t)
  {
    assert [t][1..] == [];
  }

  /** A step moves one task on, and only taking the layout adds another. */
  lemma StepShape(s: State, i: nat, o: Outcome)
    requires i < |s.tasks| && !s.tasks[i].Done?
    ensures var s' := Step(s, i, o);
            if s.tasks[i].LeaderTakeLayout? && s.cells.deviceLayout then
              s'.tasks == s.tasks[i := Done(Spawned)] + [Allocate(s.tasks[i].meta)]
            else
              |s'.tasks| == |s.tasks| && s'.tasks == s.tasks[i := s'.tasks[i]] &&
              StepsLeft(s'.tasks[i]) < StepsLeft(s.tasks[i])
  {
  }

  /** Every step of an unfinished task lowers the work left, spawned tasks included.  That a lock is
      granted and an acknowledgement returns is part of what a step is. */
  lemma StepsLowerWork(s: State, i: nat, o: Outcome)
    requires i < |s.tasks|
    ensures s.tasks[i].Done? ==> Apply(s, Advance(i, o)) == s
    ensures !s.tasks[i].Done? ==> Work(Apply(s, Advance(i, o)).tasks) < Work(s.tasks)
  {
    if !s.tasks[i].Done? {
      StepShape(s, i, o);
      var s' := Step(s, i, o);
      if s.tasks[i].LeaderTakeLayout? && s.cells.deviceLayout {
        var spawned := Allocate(s.tasks[i].meta);
        WorkUpdate(s.tasks, i, Done(Spawned));
        WorkAppend(s.tasks[i := Done(Spawned)], [spawned]);
        WorkOfOne(spawned);
      } else {
        WorkUpdate(s.tasks, i, s'.tasks[i]);
      }
    }
  }

  /** The number of steps of a run that are taken by an unfinished task. */
  function Moves(s: State, events: seq<Event>): nat
    decreases |events|
  {
    if events == [] then 0
    else Bit(events[0].Advance? && Apply(s, events[0]) != s) + Moves(Apply(s, events[0]), events[1..])
  }

  function Arrivals(events: seq<Event>): nat {
    if events == [] then 0 else Bit(events[0].Arrive?) + Arrivals(events[1..])
  }

  /** n messages are dealt with in at most 8n steps, whatever the schedule. */
  lemma {:induction false} BoundedWork(s: State, events: seq<Event>)
    ensures Moves(s, events) + Work(Exec(s, events).tasks) <= Work(s.tasks) + 8 * Arrivals(events)
    decreases |events|
  {
    if events != [] {
      var s1 := Apply(s, events[0]);
      BoundedWork(s1, events[1..]);
      match events[0]
      case Arrive(m) =>
        WorkAppend(s.tasks, [Start(m)]);
        WorkOfOne(Start(m));
      case Advance(i, o) =>
        if i < |s.tasks| {
          StepsLowerWork(s, i, o);
        }
    }
  }

  // ----- How every finished run ends -----

  predicate Pending(t: Task) {
    match t
    case LeaderAck(frames) => WellFormed(frames)
    case LeaderValidate(frames) => WellFormed(frames)
    case LeaderCompareExchange(_) => true
    case _ => false
  }

  /** Allocation has started or a well-formed leader message is on its way to the compare-exchange. */
  ghost predicate Committed(s: State) {
    s.cells.started || exists i :: 0 <= i < |s.tasks| && Pending(s.tasks[i])
  }

  lemma ApplyKeepsCommitted(s: State, e: Event)
    requires Committed(s) || !Malformed(e)
    ensures Committed(Apply(s, e))
  {
    var s' := Apply(s, e);
    if !Malformed(e) {
      assert Pending(s'.tasks[|s.tasks|]);
    } else if !s.cells.started {
      var i :| 0 <= i < |s.tasks| && Pending(s.tasks[i]);
      assert e.Advance? && e.task == i ==> s'.cells.started || Pending(s'.tasks[i]);
      assert !(e.Advance? && e.task == i) ==> s'.tasks[i] == s.tasks[i];
    }
  }

  lemma {:induction false} ExecKeepsCommitted(s: State, events: seq<Event>)
    requires Committed(s) || exists k :: 0 <= k < |events| && !Malformed(events[k])
    ensures Committed(Exec(s, events))
    decreases |events|
  {
    if events != [] {
      if !Committed(s) && Malformed(events[0]) {
        var k :| 0 <= k < |events| && !Malformed(events[k]);
        assert events[1..][k - 1] == events[k];
      } else {
        ApplyKeepsCommitted(s, events[0]);
      }
      ExecKeepsCommitted(Apply(s, events[0]), events[1..]);
    }
  }

  /** Every run in which all tasks have finished ends in one of three ways.  Without a well-formed
      leader message nothing has happened.  With at least one, exactly one allocation has: either it
      published its handler and the worker is ready, or it failed and the worker never will be. */
  lemma FinishedRuns(events: seq<Event>)
    requires forall i :: 0 <= i < |Exec(INITIAL, events).tasks| ==> Exec(INITIAL, events).tasks[i].Done?
    ensures var s := Exec(INITIAL, events);
            var wellFormed := exists k :: 0 <= k < |events| && !Malformed(events[k]);
            && (!wellFormed ==> s.cells == INITIAL.cells && s.history == INITIAL.history)
            && (wellFormed ==>
                  && |s.history.allocations| == 1
                  && (s.cells.ready <==> exists i, h :: 0 <= i < |s.tasks| && s.tasks[i] == Done(Published(h)))
                  && (s.cells.ready <==> |s.history.sends| == 1)
                  && (!s.cells.ready <==> exists i: nat :: FailedForGood(s, i)))
  {
    var s := Exec(INITIAL, events);
    var owner := Reachable(events);
    if exists k :: 0 <= k < |events| && !Malformed(events[k]) {
      ExecKeepsCommitted(INITIAL, events);
      var t := s.tasks[owner.value];
      assert Owns(t) && t.Done?;
      if t.end.Published? {
        assert s.tasks[owner.value] == Done(Published(t.end.handler));
      } else {
        assert FailedForGood(s, owner.value);
      }
      forall i: nat | FailedForGood(s, i) ensures owner.value == i {
        assert Owns(s.tasks[i]);
      }
    } else {
      MalformedRun(INITIAL, events);
    }
  }
}
