/** What becomes of each single message, under every interleaving with all the others. */
module HandshakeFates {
  import opened Wrappers
  import opened Handshake
  import opened HandshakeRuns

  // ----- Counting tasks -----

  function Number(p: Task -> bool, tasks: seq<Task>): nat {
    if tasks == [] then 0 else Bit(p(tasks[0])) + Number(p, tasks[1..])
  }

  lemma {:induction false} NumberAppend(p: Task -> bool, a: seq<Task>, b: seq<Task>)
    ensures Number(p, a + b) == Number(p, a) + Number(p, b)
  {
    if a == [] {
      assert a + b == b;
    } else {
      assert (a + b)[1..] == a[1..] + b;
      NumberAppend(p, a[1..], b);
    }
  }

  lemma NumberOfOne(p: Task -> bool, t: Task)
    ensures Number(p, [t]) == Bit(p(t))
  {
    assert [t][1..] == [];
  }

  lemma NumberUpdate(p: Task -> bool, tasks: seq<Task>, i: nat, t: Task)
    requires i < |tasks|
    ensures Number(p, tasks[i := t]) + Bit(p(tasks[i])) == Number(p, tasks) + Bit(p(t))
    ensures Number(p, tasks) == Number(p, tasks[..i]) + Bit(p(tasks[i])) + Number(p, tasks[i + 1..])
  {
    assert tasks == tasks[..i] + ([tasks[i]] + tasks[i + 1..]);
    assert tasks[i := t] == tasks[..i] + ([t] + tasks[i + 1..]);
    NumberAppend(p, tasks[..i], [tasks[i]] + tasks[i + 1..]);
    NumberAppend(p, tasks[..i], [t] + tasks[i + 1..]);
    NumberAppend(p, [tasks[i]], tasks[i + 1..]);
    NumberAppend(p, [t], tasks[i + 1..]);
    NumberOfOne(p, tasks[i]);
    NumberOfOne(p, t);
  }

  lemma {:induction false} NumberIsZero(p: Task -> bool, tasks: seq<Task>)
    ensures Number(p, tasks) == 0 <==> forall i :: 0 <= i < |tasks| ==> !p(tasks[i])
  {
    if tasks != [] {
      NumberIsZero(p, tasks[1..]);
      if Number(p, tasks) == 0 {
        assert forall i :: 1 <= i < |tasks| ==> tasks[i] == tasks[1..][i - 1];
      }
    }
  }

  predicate Acked(t: Task) {
    t == Done(PingAcked)
  }

  predicate HasSpawned(t: Task) {
    t == Done(Spawned)
  }

  /** The history counts tasks: one ACK for each ping that got past it, one allocation for each
      leader message that spawned one, and a report exactly if some ping has been dealt with. */
  predicate Counted(s: State) {
    && s.history.acks == Number(AfterAck, s.tasks)
    && |s.history.allocations| == Number(HasSpawned, s.tasks)
    && (s.history.reports > 0 <==> Number(Acked, s.tasks) > 0)
    && (s.cells.layoutReadyTx <==> s.history.reports == 0)
  }

  lemma ArriveKeepsCounted(s: State, m: Message)
    requires Counted(s)
    ensures Counted(Apply(s, Arrive(m)))
  {
    NumberAppend(AfterAck, s.tasks, [Start(m)]);
    NumberAppend(HasSpawned, s.tasks, [Start(m)]);
    NumberAppend(Acked, s.tasks, [Start(m)]);
    NumberOfOne(AfterAck, Start(m));
    NumberOfOne(HasSpawned, Start(m));
    NumberOfOne(Acked, Start(m));
  }

  lemma ReplaceUpdates(s: State, i: nat, t: Task)
    requires i < |s.tasks|
    ensures var tasks := s.tasks[i := t];
            && Number(AfterAck, tasks) + Bit(AfterAck(s.tasks[i])) == Number(AfterAck, s.tasks) + Bit(AfterAck(t))
            && Number(HasSpawned, tasks) + Bit(HasSpawned(s.tasks[i])) == Number(HasSpawned, s.tasks) + Bit(HasSpawned(t))
            && Number(Acked, tasks) + Bit(Acked(s.tasks[i])) == Number(Acked, s.tasks) + Bit(Acked(t))
  {
    NumberUpdate(AfterAck, s.tasks, i, t);
    NumberUpdate(HasSpawned, s.tasks, i, t);
    NumberUpdate(Acked, s.tasks, i, t);
  }

  lemma StepKeepsCounted(s: State, i: nat, o: Outcome)
    requires Counted(s) && i < |s.tasks| && !s.tasks[i].Done?
    ensures Counted(Step(s, i, o))
  {
    var s' := Step(s, i, o);
    StepShape(s, i, o);
    if s.tasks[i].LeaderTakeLayout? && s.cells.deviceLayout {
      ReplaceUpdates(s, i, Done(Spawned));
      var spawned := Allocate(s.tasks[i].meta);
      NumberAppend(AfterAck, s.tasks[i := Done(Spawned)], [spawned]);
      NumberAppend(HasSpawned, s.tasks[i := Done(Spawned)], [spawned]);
      NumberAppend(Acked, s.tasks[i := Done(Spawned)], [spawned]);
      NumberOfOne(AfterAck, spawned);
      NumberOfOne(HasSpawned, spawned);
      NumberOfOne(Acked, spawned);
    } else {
      ReplaceUpdates(s, i, s'.tasks[i]);
    }
  }

  lemma {:induction false} ExecKeepsCounted(s: State, events: seq<Event>)
    requires Counted(s)
    ensures Counted(Exec(s, events))
    decreases |events|
  {
    if events != [] {
      match events[0] {
        case Arrive(m) => ArriveKeepsCounted(s, m);
        case Advance(i, o) =>
          if i < |s.tasks| && !s.tasks[i].Done? {
            StepKeepsCounted(s, i, o);
          }
      }
      ExecKeepsCounted(Apply(s, events[0]), events[1..]);
    }
  }

  /** At every moment of every run there are as many ACKs as pings past their ACK and as many
      allocations as leader messages that spawned one; so when all tasks have finished, the ACKs are
      the pings that ended ACKed, and readiness has been reported exactly if there is one. */
  lemma HistoryCountsTasks(events: seq<Event>)
    ensures var s := Exec(INITIAL, events);
            && s.history.acks == Number(AfterAck, s.tasks)
            && |s.history.allocations| == Number(HasSpawned, s.tasks) <= 1
            && (s.history.reports == 1 <==> exists i :: 0 <= i < |s.tasks| && s.tasks[i] == Done(PingAcked))
            && ((forall i :: 0 <= i < |s.tasks| ==> s.tasks[i].Done?) ==>
                  && s.history.acks == Number(Acked, s.tasks)
                  && (s.history.reports == 1 <==> s.history.acks > 0))
  {
    ExecKeepsCounted(INITIAL, events);
    var s := Exec(INITIAL, events);
    SingleFlight(events);
    ReadyMeansPublished(events);
    NumberIsZero(Acked, s.tasks);
    if forall i :: 0 <= i < |s.tasks| ==> s.tasks[i].Done? {
      SameNumber(AfterAck, Acked, s.tasks);
    }
  }

  lemma {:induction false} SameNumber(p: Task -> bool, q: Task -> bool, tasks: seq<Task>)
    requires forall i :: 0 <= i < |tasks| ==> (p(tasks[i]) <==> q(tasks[i]))
    ensures Number(p, tasks) == Number(q, tasks)
  {
    if tasks != [] {
      SameNumber(p, q, tasks[1..]);
    }
  }

  // ----- The turns of one task -----

  /** The outcome of e, if it is a turn of task i. */
  function Turn(e: Event, i: nat): seq<Outcome> {
    if e.Advance? && e.task == i then [e.outcome] else []
  }

  /** The outcomes a schedule has for the steps of task i. */
  function Turns(events: seq<Event>, i: nat): seq<Outcome> {
    if events == [] then []
    else Turn(events[0], i) + Turns(events[1..], i)
  }

  lemma OtherTurn(s: State, i: nat, e: Event)
    requires i < |s.tasks| && Turn(e, i) == []
    ensures var s' := Apply(s, e);
            (s.cells.ready ==> s'.cells.ready) && i < |s'.tasks| && s'.tasks[i] == s.tasks[i]
  {
  }

  lemma {:induction false} TaskWaits(s: State, i: nat, events: seq<Event>)
    requires i < |s.tasks| && Turns(events, i) == []
    ensures i < |Exec(s, events).tasks| && Exec(s, events).tasks[i] == s.tasks[i]
    decreases |events|
  {
    if events != [] {
      OtherTurn(s, i, events[0]);
      TaskWaits(Apply(s, events[0]), i, events[1..]);
    }
  }

  lemma {:induction false} DoneStays(s: State, i: nat, events: seq<Event>)
    requires i < |s.tasks| && s.tasks[i].Done?
    ensures i < |Exec(s, events).tasks| && Exec(s, events).tasks[i] == s.tasks[i]
    decreases |events|
  {
    if events != [] {
      DoneStays(Apply(s, events[0]), i, events[1..]);
    }
  }

  // ----- Pings -----

  /** Where a ping has got to at a ready worker after these turns: checked, ACKed or failed to, and
      reported. */
  function Answered(turns: seq<Outcome>): Task {
    if |turns| == 0 then PingCheck
    else if |turns| == 1 then PingAck
    else if !turns[1].ackOk then Done(AckFailed)
    else if |turns| == 2 then PingReport
    else Done(PingAcked)
  }

  lemma PingTurn(s: State, i: nat, taken: seq<Outcome>, o: Outcome)
    requires s.cells.ready && i < |s.tasks| && s.tasks[i] == Answered(taken)
    ensures var s' := Apply(s, Advance(i, o));
            s'.cells.ready && i < |s'.tasks| && s'.tasks[i] == Answered(taken + [o])
  {
    assert |taken| >= 2 ==> (taken + [o])[1] == taken[1];
  }

  lemma {:induction false} PingProgress(s: State, i: nat, taken: seq<Outcome>, events: seq<Event>)
    requires s.cells.ready && i < |s.tasks| && s.tasks[i] == Answered(taken)
    ensures var s' := Exec(s, events);
            s'.cells.ready && i < |s'.tasks| && s'.tasks[i] == Answered(taken + Turns(events, i))
    decreases |events|
  {
    if events == [] {
      assert taken + [] == taken;
    } else {
      var turn := Turn(events[0], i);
      assert taken + Turns(events, i) == (taken + turn) + Turns(events[1..], i);
      if turn == [] {
        OtherTurn(s, i, events[0]);
        assert taken + turn == taken;
      } else {
        PingTurn(s, i, taken, events[0].outcome);
      }
      PingProgress(Apply(s, events[0]), i, taken + turn, events[1..]);
    }
  }

  /** A ping is decided by what its first step finds.  A worker not ready then defers it for good; at
      a ready one the second step is its ACK, whose result alone decides how it ends. */
  lemma PingIsDecidedAtItsFirstTurn(s: State, i: nat, quiet: seq<Event>, o: Outcome, rest: seq<Event>)
    requires i < |s.tasks| && s.tasks[i] == PingCheck && Turns(quiet, i) == []
    ensures var s' := Exec(s, quiet + [Advance(i, o)] + rest);
            && i < |s'.tasks|
            && s'.tasks[i] == if Exec(s, quiet).cells.ready then Answered([o] + Turns(rest, i)) else Done(PingDeferred)
  {
    var e := Advance(i, o);
    var s1 := Exec(s, quiet);
    TaskWaits(s, i, quiet);
    assert quiet + [e] + rest == quiet + ([e] + rest);
    ExecAppend(s, quiet, [e] + rest);
    Unroll(s1, e, rest);
    if s1.cells.ready {
      PingProgress(Apply(s1, e), i, [o], rest);
    } else {
      DoneStays(Apply(s1, e), i, rest);
    }
  }

  lemma ReadyDefersNoTask(s: State, e: Event)
    requires s.cells.ready
    ensures var s' := Apply(s, e);
            && s'.cells.ready
            && forall j :: 0 <= j < |s'.tasks| && s'.tasks[j] == Done(PingDeferred) ==>
                             j < |s.tasks| && s.tasks[j] == Done(PingDeferred)
  {
    if e.Advance? && e.task < |s.tasks| && !s.tasks[e.task].Done? {
      StepShape(s, e.task, e.outcome);
      assert Apply(s, e).tasks[e.task] != Done(PingDeferred);
    }
  }

  lemma {:induction false} ReadyDefersNothing(s: State, events: seq<Event>)
    requires s.cells.ready
    ensures var s' := Exec(s, events);
            forall j :: 0 <= j < |s'.tasks| && s'.tasks[j] == Done(PingDeferred) ==>
                          j < |s.tasks| && s.tasks[j] == Done(PingDeferred)
    decreases |events|
  {
    if events != [] {
      ReadyDefersNoTask(s, events[0]);
      ReadyDefersNothing(Apply(s, events[0]), events[1..]);
    }
  }

  /** Once ready, a worker answers every ping.  In every continuation no ping, early or late, is newly
      deferred; and one that arrives now has finished after three turns at the latest, ends ACKed
      exactly if its ACK succeeds, and has then added exactly one to the ACKs of the others. */
  lemma ReadyWorkerAnswersPings(before: seq<Event>, after: seq<Event>)
    requires Exec(INITIAL, before).cells.ready
    ensures var s := Exec(INITIAL, before);
            var i := |s.tasks|;
            var s' := Exec(INITIAL, before + ([Arrive(PingMessage)] + after));
            var turns := Turns(after, i);
            && (forall j :: 0 <= j < |s'.tasks| && s'.tasks[j] == Done(PingDeferred) ==>
                              j < |s.tasks| && s.tasks[j] == Done(PingDeferred))
            && i < |s'.tasks|
            && (|turns| >= 3 ==> s'.tasks[i].Done?)
            && (s'.tasks[i].Done? ==>
                  |turns| >= 2 && s'.tasks[i] == if turns[1].ackOk then Done(PingAcked) else Done(AckFailed))
            && s'.history.acks ==
               Number(AfterAck, s'.tasks[..i]) + Bit(|turns| >= 2 && turns[1].ackOk) + Number(AfterAck, s'.tasks[i + 1..])
  {
    var s, e := Exec(INITIAL, before), Arrive(PingMessage);
    var i := |s.tasks|;
    ExecAppend(INITIAL, before, [e] + after);
    Unroll(s, e, after);
    var s' := Exec(s, [e] + after);
    ReadyDefersNothing(s, [e] + after);
    PingProgress(Apply(s, e), i, [], after);
    assert [] + Turns(after, i) == Turns(after, i);
    HistoryCountsTasks(before + ([e] + after));
    NumberUpdate(AfterAck, s'.tasks, i, s'.tasks[i]);
  }

  /** Left to itself, such a ping is ACKed, and the first one reports readiness. */
  lemma LonePingIsAcked(s: State, o: Outcome)
    requires s.cells.ready && o.ackOk
    ensures var e := Advance(|s.tasks|, o);
            var s' := Exec(s, [Arrive(PingMessage), e, e, e]);
            && s'.tasks == s.tasks + [Done(PingAcked)]
            && s'.history == s.history.(acks := s.history.acks + 1, reports := s.history.reports + Bit(s.cells.layoutReadyTx))
            && s'.cells == s.cells.(layoutReadyTx := false)
  {
    var e := Advance(|s.tasks|, o);
    var s1 := Apply(s, Arrive(PingMessage));
    var s2 := Apply(s1, e);
    var s3 := Apply(s2, e);
    var s4 := Apply(s3, e);
    assert s2.tasks == s.tasks + [PingAck];
    assert s3.tasks == s.tasks + [PingReport];
    assert s4.tasks == s.tasks + [Done(PingAcked)];
    Unroll(s, Arrive(PingMessage), [e, e, e]);
    Unroll(s1, e, [e, e]);
    Unroll(s2, e, [e]);
    Unroll(s3, e, []);
  }

  // ----- Transfers and leader messages -----

  /** A transfer is decided by the one time it reads the cell. */
  lemma TransferIsDecidedAtItsTurn(s: State, i: nat, quiet: seq<Event>, o: Outcome, rest: seq<Event>)
    requires i < |s.tasks| && s.tasks[i] == TransferRead && Turns(quiet, i) == []
    ensures var s' := Exec(s, quiet + [Advance(i, o)] + rest);
            var cell := Exec(s, quiet).cells.handlerCell;
            i < |s'.tasks| && s'.tasks[i] == if cell.Some? then Done(Dispatched(cell.value)) else Done(NotReady)
  {
    var e := Advance(i, o);
    TaskWaits(s, i, quiet);
    assert quiet + [e] + rest == quiet + ([e] + rest);
    ExecAppend(s, quiet, [e] + rest);
    Unroll(Exec(s, quiet), e, rest);
    DoneStays(Apply(Exec(s, quiet), e), i, rest);
  }

  /** So a transfer that arrives takes one step, whenever it comes: it is dispatched to the installed
      handler if there is one by then, and refused otherwise; which is all it does. */
  lemma TransferTakesOneStep(before: seq<Event>, quiet: seq<Event>, o: Outcome, rest: seq<Event>)
    requires Turns(quiet, |Exec(INITIAL, before).tasks|) == []
    ensures var i := |Exec(INITIAL, before).tasks|;
            var s := Exec(INITIAL, before + ([Arrive(TransferMessage)] + quiet));
            var s' := Exec(s, [Advance(i, o)] + rest);
            && i < |s'.tasks|
            && s'.tasks[i] == (if s.history.installs == [] then Done(NotReady) else Done(Dispatched(s.history.installs[0])))
            && Apply(s, Advance(i, o)).cells == s.cells && Apply(s, Advance(i, o)).history == s.history
  {
    var s0, e := Exec(INITIAL, before), Arrive(TransferMessage);
    var i := |s0.tasks|;
    ExecAppend(INITIAL, before, [e] + quiet);
    Unroll(s0, e, quiet);
    var s1 := Apply(s0, e);
    assert s1.tasks[i] == TransferRead;
    TransferIsDecidedAtItsTurn(s1, i, quiet, o, rest);
    assert quiet + [Advance(i, o)] + rest == quiet + ([Advance(i, o)] + rest);
    ExecAppend(s1, quiet, [Advance(i, o)] + rest);
    TaskWaits(s1, i, quiet);
    SingleFlight(before + ([e] + quiet));
  }

  /** What may have become of a leader message with these frames. */
  predicate LeaderFate(s: State, i: nat, frames: seq<Frame>) {
    i < |s.tasks| &&
    match s.tasks[i]
    case LeaderAck(f) => f == frames
    case LeaderValidate(f) => f == frames
    case LeaderCompareExchange(meta) => WellFormed(frames) && meta == frames[0].meta
    case LeaderTakeLayout(meta) => WellFormed(frames) && meta == frames[0].meta
    case Done(end) =>
      if !WellFormed(frames) then end == BadPayload
      else
        || end == DuplicateDropped
        || end == LayoutConsumed
        || (end == Spawned && frames[0].meta in s.history.allocations)
    case _ => false
  }

  lemma {:induction false} LeaderProgress(s: State, i: nat, frames: seq<Frame>, events: seq<Event>)
    requires LeaderFate(s, i, frames)
    ensures LeaderFate(Exec(s, events), i, frames)
    decreases |events|
  {
    if events != [] {
      LeaderProgress(Apply(s, events[0]), i, frames, events[1..]);
    }
  }

  /** Every finished leader message has ended for the right reason: refused exactly if it is malformed;
      otherwise it is a duplicate or the one whose own metadata was allocated for. */
  lemma LeaderMessageEndsByItsPayload(before: seq<Event>, frames: seq<Frame>, after: seq<Event>)
    ensures var s := Exec(INITIAL, before);
            var i := |s.tasks|;
            var s' := Exec(INITIAL, before + ([Arrive(LeaderMessage(frames))] + after));
            && i < |s'.tasks|
            && (s'.tasks[i].Done? ==>
                  && (s'.tasks[i] == Done(BadPayload) <==> !WellFormed(frames))
                  && (WellFormed(frames) ==> s'.tasks[i] == Done(DuplicateDropped) || s'.tasks[i] == Done(Spawned))
                  && (s'.tasks[i] == Done(Spawned) ==> s'.history.allocations == [frames[0].meta])
                  && (WellFormed(frames) && s.cells.started ==> s'.tasks[i] == Done(DuplicateDropped)))
  {
    var s, e := Exec(INITIAL, before), Arrive(LeaderMessage(frames));
    var i := |s.tasks|;
    ExecAppend(INITIAL, before, [e] + after);
    Unroll(s, e, after);
    LeaderProgress(Apply(s, e), i, frames, after);
    SingleFlight(before + ([e] + after));
    if s.cells.started {
      LateLeaderSpawnsNothing(Apply(s, e), i, after);
    }
  }

  /** A leader message that has not passed the compare-exchange when the allocation has started. */
  predicate TooLate(s: State, i: nat) {
    s.cells.started && i < |s.tasks| &&
    match s.tasks[i]
    case LeaderAck(_) => true
    case LeaderValidate(_) => true
    case LeaderCompareExchange(_) => true
    case Done(end) => end != Spawned
    case _ => false
  }

  lemma StaysTooLate(s: State, i: nat, e: Event)
    requires TooLate(s, i)
    ensures TooLate(Apply(s, e), i)
  {
    if e.Advance? && e.task < |s.tasks| && e.task != i {
      assert Apply(s, e).tasks[i] == s.tasks[i];
    }
  }

  lemma {:induction false} LateLeaderSpawnsNothing(s: State, i: nat, events: seq<Event>)
    requires TooLate(s, i)
    ensures TooLate(Exec(s, events), i)
    decreases |events|
  {
    if events != [] {
      StaysTooLate(s, i, events[0]);
      LateLeaderSpawnsNothing(Apply(s, events[0]), i, events[1..]);
    }
  }
}
