/**
  Shutting the metrics server down when the last metrics instance goes.  Instances are clones of
  one handle; the shared notifier's reference count is theirs plus the server task's.  Dropping
  an instance reads the count and notifies if it is 2, and only afterwards gives up its
  reference, so drops of different instances may interleave between the two.
 */
module MetricsShutdown {
  datatype Phase = Live | Dropping | Gone

  /** A notification wakes only a server that is already waiting for one. */
  datatype Server = Starting | Waiting | Notified | Exited

  datatype Event =
    | Clone(i: nat)
    | ReadCount(i: nat)
    | Decrement(i: nat)
    | ServerWaits
    | ServerExits

  /** trail lists the events that moved an instance, in order; waitedAtRead says whether the server
      was waiting at the last count reading. */
  datatype State = State(
    strong: int,
    instances: seq<Phase>,
    server: Server,
    notifications: nat,
    waitedAtRead: bool,
    trail: seq<Event>)

  /** A fresh instance with its endpoint. */
  const CREATED: State := State(2, [Live], Starting, 0, false, [])

  predicate Is(s: State, i: nat, p: Phase) {
    i < |s.instances| && s.instances[i] == p
  }

  function Apply(s: State, e: Event): State {
    match e
    case Clone(i) =>
      if Is(s, i, Live) then
        s.(strong := s.strong + 1, instances := s.instances + [Live], trail := s.trail + [e])
      else s
    case ReadCount(i) =>
      if Is(s, i, Live) then
        var read := s.(instances := s.instances[i := Dropping], waitedAtRead := s.server == Waiting, trail := s.trail + [e]);
        if s.strong == 2 then Notify(read) else read
      else s
    case Decrement(i) =>
      if Is(s, i, Dropping) then
        s.(strong := s.strong - 1, instances := s.instances[i := Gone], trail := s.trail + [e])
      else s
    case ServerWaits => if s.server == Starting then s.(server := Waiting) else s
    case ServerExits =>
      if s.server != Exited then s.(strong := s.strong - 1, server := Exited) else s
  }

  function Notify(s: State): State {
    s.(notifications := s.notifications + 1, server := if s.server == Waiting then Notified else s.server)
  }

  function Exec(s: State, events: seq<Event>): State
    decreases |events|
  {
    if events == [] then s else Exec(Apply(s, events[0]), events[1..])
  }

  class SharedNotify {
    var strong: int
    var instances: seq<Phase>
    var server: Server
    ghost var notifications: nat
    ghost var waitedAtRead: bool
    ghost var trail: seq<Event>

    ghost function Snapshot(): State
      reads this
    {
      State(strong, instances, server, notifications, waitedAtRead, trail)
    }

    ghost predicate Valid()
      reads this
    {
      Counted(Snapshot())
    }

    constructor ()
      ensures Snapshot() == CREATED && Valid()
    {
      strong, instances, server := 2, [Live], Starting;
      notifications, waitedAtRead, trail := 0, false, [];
      new;
      assert [Live][1..] == [];
    }

    method CloneInstance(i: nat)
      requires Valid() && i < |instances| && instances[i] == Live
      modifies this
      ensures Snapshot() == Apply(old(Snapshot()), Clone(i)) && Valid()
    {
      ApplyKeepsCount(Snapshot(), Clone(i));
      strong := strong + 1;
      instances := instances + [Live];
      trail := trail + [Clone(i)];
    }

    method BeginDrop(i: nat)
      requires Valid() && i < |instances| && instances[i] == Live
      modifies this
      ensures Snapshot() == Apply(old(Snapshot()), ReadCount(i)) && Valid()
    {
      ApplyKeepsCount(Snapshot(), ReadCount(i));
      instances := instances[i := Dropping];
      waitedAtRead := server == Waiting;
      trail := trail + [ReadCount(i)];
      if strong == 2 {
        notifications := notifications + 1;
        if server == Waiting {
          server := Notified;
        }
      }
    }

    method FinishDrop(i: nat)
      requires Valid() && i < |instances| && instances[i] == Dropping
      modifies this
      ensures Snapshot() == Apply(old(Snapshot()), Decrement(i)) && Valid()
    {
      ApplyKeepsCount(Snapshot(), Decrement(i));
      AliveAt(instances, i, Gone);
      strong := strong - 1;
      instances := instances[i := Gone];
      trail := trail + [Decrement(i)];
    }

    /** A drop that nothing interleaves with. */
    method Drop(i: nat)
      requires Valid() && i < |instances| && instances[i] == Live
      modifies this
      ensures Snapshot() == Apply(Apply(old(Snapshot()), ReadCount(i)), Decrement(i)) && Valid()
    {
      BeginDrop(i);
      FinishDrop(i);
    }
  }

  // ----- The reference count -----

  function Alive(instances: seq<Phase>): nat {
    if instances == [] then 0 else (if instances[0] == Gone then 0 else 1) + Alive(instances[1..])
  }

  lemma {:induction false} AliveAppend(a: seq<Phase>, b: seq<Phase>)
    ensures Alive(a + b) == Alive(a) + Alive(b)
  {
    if a == [] {
      assert a + b == b;
    } else {
      assert (a + b)[1..] == a[1..] + b;
      AliveAppend(a[1..], b);
    }
  }

  function Weight(p: Phase): nat { if p == Gone then 0 else 1 }

  /** Moving the i-th instance to another phase. */
  lemma AliveAt(instances: seq<Phase>, i: nat, p: Phase)
    requires i < |instances|
    ensures Alive(instances[i := p]) + Weight(instances[i]) == Alive(instances) + Weight(p)
    ensures Alive(instances) == Alive(instances[..i]) + Weight(instances[i]) + Alive(instances[i + 1..])
  {
    var before, after := instances[..i], instances[i + 1..];
    assert instances == before + ([instances[i]] + after);
    assert instances[i := p] == before + ([p] + after);
    AliveAppend(before, [instances[i]] + after);
    AliveAppend(before, [p] + after);
    AliveAppend([p], after);
    AliveAppend([instances[i]], after);
  }

  lemma {:induction false} AliveBounds(instances: seq<Phase>)
    ensures Alive(instances) == 0 <==> forall j :: 0 <= j < |instances| ==> instances[j] == Gone
  {
    if instances != [] {
      AliveBounds(instances[1..]);
      if Alive(instances) == 0 {
        assert forall j :: 1 <= j < |instances| ==> instances[j] == instances[1..][j - 1];
      }
    }
  }

  predicate Counted(s: State) {
    s.strong == Alive(s.instances) + if s.server == Exited then 0 else 1
  }

  lemma ApplyKeepsCount(s: State, e: Event)
    requires Counted(s)
    ensures Counted(Apply(s, e))
  {
    match e
    case Clone(i) => AliveAppend(s.instances, [Live]); assert [Live][1..] == [];
    case ReadCount(i) => if i < |s.instances| { AliveAt(s.instances, i, Dropping); }
    case Decrement(i) => if i < |s.instances| { AliveAt(s.instances, i, Gone); }
    case ServerWaits =>
    case ServerExits =>
  }

  // ----- While the server holds its reference -----

  /** At most the i-th instance is not yet gone. */
  predicate OnlyLeft(s: State, i: nat) {
    forall j :: 0 <= j < |s.instances| && j != i ==> s.instances[j] == Gone
  }

  lemma OnlyLeftCount(s: State, i: nat)
    requires i < |s.instances| && s.instances[i] != Gone
    ensures OnlyLeft(s, i) <==> Alive(s.instances) == 1
  {
    AliveAt(s.instances, i, Gone);
    AliveBounds(s.instances[..i]);
    AliveBounds(s.instances[i + 1..]);
    if Alive(s.instances) == 1 {
      forall j | 0 <= j < |s.instances| && j != i ensures s.instances[j] == Gone {
        if j < i {
          assert s.instances[..i][j] == Gone;
        } else {
          assert s.instances[i + 1..][j - i - 1] == Gone;
        }
      }
    }
  }

  predicate LastWasRead(trail: seq<Event>) {
    |trail| >= 1 && trail[|trail| - 1].ReadCount?
  }

  /** The last two events are the count reading and the decrement of one drop. */
  predicate EndsWithWholeDrop(trail: seq<Event>) {
    |trail| >= 2 && trail[|trail| - 2].ReadCount?
  }

  /** The state of a run in which the server has not exited. */
  ghost predicate Holds(s: State) {
    && Counted(s) && s.server != Exited
    && s.notifications <= 1
    && (s.server == Notified <==> s.notifications == 1 && s.waitedAtRead)
    && (Alive(s.instances) >= 2 ==> s.notifications == 0)
    && (forall i :: 0 <= i < |s.instances| && s.instances[i] == Live ==> s.notifications == 0)
    && (forall i :: 0 <= i < |s.instances| && s.instances[i] == Dropping && Alive(s.instances) == 1 ==>
          |s.trail| >= 1 && (s.notifications == 1 <==> LastWasRead(s.trail)))
    && (Alive(s.instances) == 0 ==> (s.notifications == 1 <==> EndsWithWholeDrop(s.trail)))
  }

  lemma CloneKeepsHolds(s: State, i: nat)
    requires Holds(s) && Is(s, i, Live)
    ensures Holds(Apply(s, Clone(i)))
  {
    AliveAt(s.instances, i, Live);
    ApplyKeepsCount(s, Clone(i));
    AliveAppend(s.instances, [Live]);
    assert [Live][1..] == [];
  }

  lemma ReadKeepsHolds(s: State, i: nat)
    requires Holds(s) && Is(s, i, Live)
    ensures Holds(Apply(s, ReadCount(i)))
  {
    var s' := Apply(s, ReadCount(i));
    ApplyKeepsCount(s, ReadCount(i));
    AliveAt(s.instances, i, Dropping);
    OnlyLeftCount(s, i);
    forall j | 0 <= j < |s'.instances| && s'.instances[j] == Live ensures s'.notifications == 0 {
      assert j != i && s.instances[j] == Live;
    }
  }

  lemma DecrementKeepsHolds(s: State, i: nat)
    requires Holds(s) && Is(s, i, Dropping)
    ensures Holds(Apply(s, Decrement(i)))
  {
    var s' := Apply(s, Decrement(i));
    ApplyKeepsCount(s, Decrement(i));
    AliveAt(s.instances, i, Gone);
    forall j | 0 <= j < |s'.instances| && s'.instances[j] != Gone ensures s'.instances[j] == s.instances[j] {
    }
    if Alive(s.instances) == 1 {
      assert s'.trail[|s'.trail| - 2] == s.trail[|s.trail| - 1];
      AliveBounds(s'.instances);
    }
  }

  lemma ApplyKeepsHolds(s: State, e: Event)
    requires Holds(s) && e != ServerExits
    ensures Holds(Apply(s, e))
  {
    match e
    case Clone(i) => if Is(s, i, Live) { CloneKeepsHolds(s, i); }
    case ReadCount(i) => if Is(s, i, Live) { ReadKeepsHolds(s, i); }
    case Decrement(i) => if Is(s, i, Dropping) { DecrementKeepsHolds(s, i); }
    case ServerWaits =>
    case ServerExits =>
  }

  lemma {:induction false} ExecKeepsHolds(s: State, events: seq<Event>)
    requires Holds(s) && ServerExits !in events
    ensures Holds(Exec(s, events))
    decreases |events|
  {
    if events != [] {
      ApplyKeepsHolds(s, events[0]);
      ExecKeepsHolds(Apply(s, events[0]), events[1..]);
    }
  }

  lemma CreatedHolds()
    ensures Holds(CREATED) && Counted(CREATED)
  {
    assert [Live][1..] == [];
    assert Alive([Live]) == 1;
  }

  /** While the server holds its reference, over all interleavings of any number of clones: nothing
      is notified twice, no notification happens while another instance is alive, and a count
      reading notifies exactly when every other instance is gone. */
  lemma OnlyTheLastNotifies(events: seq<Event>, i: nat)
    requires ServerExits !in events
    ensures var s := Exec(CREATED, events);
            && s.notifications <= 1
            && (s.notifications == 1 ==> forall j :: 0 <= j < |s.instances| ==> s.instances[j] != Live)
            && (Is(s, i, Live) ==>
                  (Apply(s, ReadCount(i)).notifications == s.notifications + 1 <==> OnlyLeft(s, i)))
  {
    CreatedHolds();
    ExecKeepsHolds(CREATED, events);
    var s := Exec(CREATED, events);
    if Is(s, i, Live) {
      OnlyLeftCount(s, i);
      AliveAt(s.instances, i, Gone);
    }
  }

  /** When all instances are gone the server has been notified if and only if the last drop was not
      overlapped: the trail of instance events ends with the count reading and the decrement of one
      and the same drop. */
  lemma NotifiedIffLastDropIsAlone(events: seq<Event>)
    requires ServerExits !in events
    requires forall i :: 0 <= i < |Exec(CREATED, events).instances| ==> Exec(CREATED, events).instances[i] == Gone
    ensures var s := Exec(CREATED, events);
            s.notifications == (if EndsWithWholeDrop(s.trail) then 1 else 0)
  {
    CreatedHolds();
    ExecKeepsHolds(CREATED, events);
    AliveBounds(Exec(CREATED, events).instances);
  }

  /** Over all interleavings: when all instances are gone the server has been told if and only if the
      last drop was not overlapped and the server was waiting at its count reading.  It is not told
      later: the notification is not remembered. */
  lemma ToldIffWaitingAtLoneLastDrop(events: seq<Event>, later: seq<Event>)
    requires ServerExits !in events && ServerExits !in later
    requires forall i :: 0 <= i < |Exec(CREATED, events).instances| ==> Exec(CREATED, events).instances[i] == Gone
    ensures var s := Exec(CREATED, events);
            && (s.server == Notified <==> EndsWithWholeDrop(s.trail) && s.waitedAtRead)
            && (Exec(s, later).server == Notified <==> s.server == Notified)
  {
    NotifiedIffLastDropIsAlone(events);
    CreatedHolds();
    ExecKeepsHolds(CREATED, events);
    NothingMovesWhenAllGone(Exec(CREATED, events), later);
  }

  lemma {:induction false} NothingMovesWhenAllGone(s: State, events: seq<Event>)
    requires ServerExits !in events && forall i :: 0 <= i < |s.instances| ==> s.instances[i] == Gone
    ensures Exec(s, events).(server := s.server) == s
    ensures Exec(s, events).server == Notified <==> s.server == Notified
    decreases |events|
  {
    if events != [] {
      NothingMovesWhenAllGone(Apply(s, events[0]), events[1..]);
    }
  }

  /** Overlapping last drops exist and are silent: both read the count before either gives it up. */
  lemma OverlappingDropsAreSilent()
    ensures var s := Exec(CREATED, [ServerWaits, Clone(0), ReadCount(0), ReadCount(1), Decrement(0), Decrement(1)]);
            s == State(1, [Gone, Gone], Waiting, 0, true, [Clone(0), ReadCount(0), ReadCount(1), Decrement(0), Decrement(1)])
  {
  }

  // ----- A server that exits on its own -----

  lemma {:induction false} ExecKeepsCount(s: State, events: seq<Event>)
    requires Counted(s)
    ensures Counted(Exec(s, events))
    decreases |events|
  {
    if events != [] {
      ApplyKeepsCount(s, events[0]);
      ExecKeepsCount(Apply(s, events[0]), events[1..]);
    }
  }

  /** Over all interleavings, a server that exits on its own included: a count reading notifies
      exactly if one other reference is left besides its own, the server's or, once that is gone,
      another instance's.  So after the server has exited it is the drop before the last, not the
      last, that notifies, and nobody is left to hear it. */
  lemma NotifiesIffTwoReferencesAreLeft(events: seq<Event>, i: nat)
    requires Is(Exec(CREATED, events), i, Live)
    ensures var s := Exec(CREATED, events);
            var s' := Apply(s, ReadCount(i));
            && (s'.notifications == s.notifications + 1 <==>
                Alive(s.instances) == (if s.server == Exited then 2 else 1))
            && (s'.notifications == s.notifications + 1 || s'.notifications == s.notifications)
            && (s.server == Exited ==> s'.server == Exited)
  {
    CreatedHolds();
    ExecKeepsCount(CREATED, events);
  }

  /** The server is woken at most once and, even if it may exit at any time, never while any
      instance is still in use. */
  ghost predicate Woken(s: State) {
    Counted(s) && (s.server == Notified ==> forall i :: 0 <= i < |s.instances| ==> s.instances[i] != Live)
  }

  lemma {:induction false} NeverWokenWhileInUse(s: State, events: seq<Event>)
    requires Woken(s)
    ensures Woken(Exec(s, events))
    decreases |events|
  {
    if events != [] {
      var e := events[0];
      var s1 := Apply(s, e);
      ApplyKeepsCount(s, e);
      if e.ReadCount? && Is(s, e.i, Live) && s.server == Waiting && s.strong == 2 {
        OnlyLeftCount(s, e.i);
      }
      assert forall i :: 0 <= i < |s1.instances| && s1.instances[i] == Live && i < |s.instances| ==> s.instances[i] == Live;
      NeverWokenWhileInUse(s1, events[1..]);
    }
  }

  // ----- Sequential use -----

  datatype Op = CloneOf(i: nat) | DropOf(i: nat) | StartWaiting

  function Events(op: Op): seq<Event> {
    match op
    case CloneOf(i) => [Clone(i)]
    case DropOf(i) => [ReadCount(i), Decrement(i)]
    case StartWaiting => [ServerWaits]
  }

  function Perform(s: State, op: Op): State {
    match op
    case CloneOf(i) => Apply(s, Clone(i))
    case DropOf(i) => Apply(Apply(s, ReadCount(i)), Decrement(i))
    case StartWaiting => Apply(s, ServerWaits)
  }

  function PerformAll(s: State, ops: seq<Op>): State
    decreases |ops|
  {
    if ops == [] then s else PerformAll(Perform(s, ops[0]), ops[1..])
  }

  function AllEvents(ops: seq<Op>): seq<Event> {
    if ops == [] then [] else Events(ops[0]) + AllEvents(ops[1..])
  }

  lemma {:induction false} ExecAppend(s: State, a: seq<Event>, b: seq<Event>)
    ensures Exec(s, a + b) == Exec(Exec(s, a), b)
    decreases |a|
  {
    if a == [] {
      assert a + b == b;
    } else {
      assert (a + b)[1..] == a[1..] + b;
      ExecAppend(Apply(s, a[0]), a[1..], b);
    }
  }

  /** Sequential use is one of the interleavings: each drop's two steps next to each other. */
  lemma {:induction false} SequentialRunsAreRuns(s: State, ops: seq<Op>)
    ensures PerformAll(s, ops) == Exec(s, AllEvents(ops))
    decreases |ops|
  {
    if ops != [] {
      ExecAppend(s, Events(ops[0]), AllEvents(ops[1..]));
      if ops[0].DropOf? {
        var read, give := ReadCount(ops[0].i), Decrement(ops[0].i);
        assert [read, give][1..] == [give];
        assert Exec(Apply(s, read), [give]) == Apply(Apply(s, read), give);
      }
      SequentialRunsAreRuns(Perform(s, ops[0]), ops[1..]);
    }
  }

  /** No drop is half done, and the notification happened exactly if nothing is left. */
  ghost predicate Settled(s: State) {
    && Counted(s) && s.server != Exited
    && (forall i :: 0 <= i < |s.instances| ==> s.instances[i] != Dropping)
    && s.notifications == (if Alive(s.instances) == 0 then 1 else 0)
    && (s.server == Notified ==> s.notifications == 1)
  }

  lemma PerformKeepsSettled(s: State, op: Op)
    requires Settled(s)
    ensures Settled(Perform(s, op))
    ensures Perform(s, op).server == Notified <==>
            s.server == Notified ||
            (s.server == Waiting && Alive(s.instances) > 0 && Alive(Perform(s, op).instances) == 0)
  {
    match op
    case CloneOf(i) =>
      ApplyKeepsCount(s, Clone(i));
      AliveBounds(s.instances);
      AliveAppend(s.instances, [Live]);
      assert [Live][1..] == [];
    case DropOf(i) =>
      if Is(s, i, Live) {
        var s1 := Apply(s, ReadCount(i));
        ApplyKeepsCount(s, ReadCount(i));
        ApplyKeepsCount(s1, Decrement(i));
        AliveAt(s.instances, i, Dropping);
        AliveAt(s1.instances, i, Gone);
        assert Is(s1, i, Dropping);
        var s2 := Apply(s1, Decrement(i));
        forall j | 0 <= j < |s2.instances| ensures s2.instances[j] != Dropping {
          assert j != i ==> s2.instances[j] == s.instances[j];
        }
      } else {
        assert Apply(s, ReadCount(i)) == s;
        assert !Is(s, i, Dropping);
      }
    case StartWaiting =>
  }

  /** In every sequential run of clones and drops the notification happens exactly once, at the drop
      after which nothing is left, and never before. */
  lemma {:induction false} SequentialRunsNotifyOnce(s: State, ops: seq<Op>)
    requires Settled(s)
    ensures Settled(PerformAll(s, ops))
    decreases |ops|
  {
    if ops != [] {
      PerformKeepsSettled(s, ops[0]);
      SequentialRunsNotifyOnce(Perform(s, ops[0]), ops[1..]);
    }
  }

  lemma {:induction false} EarlyNotificationIsLost(s: State, ops: seq<Op>)
    requires Settled(s) && s.server != Notified && Alive(s.instances) == 0
    ensures PerformAll(s, ops).server != Notified
    decreases |ops|
  {
    if ops != [] {
      PerformKeepsSettled(s, ops[0]);
      AliveBounds(s.instances);
      EarlyNotificationIsLost(Perform(s, ops[0]), ops[1..]);
    }
  }

  lemma {:induction false} PerformAllAppend(s: State, a: seq<Op>, b: seq<Op>)
    ensures PerformAll(s, a + b) == PerformAll(PerformAll(s, a), b)
    decreases |a|
  {
    if a == [] {
      assert a + b == b;
    } else {
      assert (a + b)[1..] == a[1..] + b;
      PerformAllAppend(Perform(s, a[0]), a[1..], b);
    }
  }

  /** The notification is not remembered: if the last drop comes before the server waits, the server
      is never told, whatever follows; if the server waits first, it is told. */
  lemma ServerIsToldIffItWaitedFirst(early: seq<Op>, late: seq<Op>)
    requires StartWaiting !in early
    ensures var s := PerformAll(CREATED, early);
            && (Alive(s.instances) == 0 ==> PerformAll(CREATED, early + late).server != Notified)
            && (Alive(s.instances) > 0 && Alive(PerformAll(CREATED, early + [StartWaiting] + late).instances) == 0 ==>
                  PerformAll(CREATED, early + [StartWaiting] + late).server == Notified)
  {
    CreatedHolds();
    SequentialRunsNotifyOnce(CREATED, early);
    StillStarting(CREATED, early);
    var s := PerformAll(CREATED, early);
    if Alive(s.instances) == 0 {
      PerformAllAppend(CREATED, early, late);
      EarlyNotificationIsLost(s, late);
    } else {
      PerformAllAppend(CREATED, early, [StartWaiting] + late);
      assert early + [StartWaiting] + late == early + ([StartWaiting] + late);
      assert ([StartWaiting] + late)[1..] == late;
      WaitingServerIsTold(Perform(s, StartWaiting), late);
    }
  }

  lemma {:induction false} StillStarting(s: State, ops: seq<Op>)
    requires s.server == Starting && StartWaiting !in ops
    ensures PerformAll(s, ops).server == Starting
    decreases |ops|
  {
    if ops != [] {
      StillStarting(Perform(s, ops[0]), ops[1..]);
    }
  }

  lemma {:induction false} WaitingServerIsTold(s: State, ops: seq<Op>)
    requires Settled(s) && (s.server == Notified || (s.server == Waiting && Alive(s.instances) > 0))
    ensures var s' := PerformAll(s, ops);
            s'.server == Notified || (s'.server == Waiting && Alive(s'.instances) > 0)
    decreases |ops|
  {
    if ops != [] {
      PerformKeepsSettled(s, ops[0]);
      var s1 := Perform(s, ops[0]);
      if s.server == Waiting && s1.server != Notified {
        AliveBounds(s1.instances);
      }
      WaitingServerIsTold(s1, ops[1..]);
    }
  }
}
