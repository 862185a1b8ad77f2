/**
  The start-up handshake of the KVBM worker as a transition system.

  Leader-metadata, ping and transfer messages are handled concurrently over a few shared
  cells, together with the allocation task that a leader-metadata message spawns.  One
  step of a task is the code between two scheduling points: an await, a lock or an atomic
  operation.  Any number of messages may be in flight, and a schedule is any sequence of
  events whatever.
 */
module Handshake {
  import opened Wrappers

  datatype Handler = Handler(id: nat)

  datatype LeaderMeta = LeaderMeta(numHostBlocks: nat, numDiskBlocks: nat)

  /** One payload frame of a leader-metadata message, as the decoder sees it. */
  datatype Frame = Undecodable | Encodes(meta: LeaderMeta)

  datatype Message =
    | LeaderMessage(frames: seq<Frame>)
    | PingMessage
    | TransferMessage

  predicate WellFormed(frames: seq<Frame>) {
    |frames| == 1 && frames[0].Encodes?
  }

  datatype End =
    | BadPayload
    | DuplicateDropped
    | LayoutConsumed
    | Spawned
    | AllocationFailed
    | Published(handler: Handler)
    | PingDeferred
    | AckFailed
    | PingAcked
    | Dispatched(handler: Handler)
    | NotReady

  /** A task is named after the step it takes next. */
  datatype Task =
    | LeaderAck(frames: seq<Frame>)
    | LeaderValidate(frames: seq<Frame>)
    | LeaderCompareExchange(meta: LeaderMeta)
    | LeaderTakeLayout(meta: LeaderMeta)
    | Allocate(meta: LeaderMeta)
    | Install(handler: Handler)
    | SendHandler(handler: Handler)
    | MarkReady(handler: Handler)
    | PingCheck
    | PingAck
    | PingReport
    | TransferRead
    | Done(end: End)

  /** The shared state: the two oneshot senders and the layout are either still there or taken. */
  datatype Cells = Cells(
    started: bool,
    deviceLayout: bool,
    handlerCell: Option<Handler>,
    handlerTx: bool,
    ready: bool,
    layoutReadyTx: bool)

  /** What the environment can observe, in order of occurrence. */
  datatype History = History(
    allocations: seq<LeaderMeta>,
    installs: seq<Handler>,
    sends: seq<Handler>,
    acks: nat,
    reports: nat)

  datatype State = State(cells: Cells, history: History, tasks: seq<Task>)

  /** The results the environment chooses for a step: those a step does not use are ignored. */
  datatype Outcome = Outcome(ackOk: bool, allocation: Option<Handler>)

  datatype Event =
    | Arrive(message: Message)
    | Advance(task: nat, outcome: Outcome)

  const INITIAL: State :=
    State(Cells(false, true, None, true, false, true), History([], [], [], 0, 0), [])

  function Start(m: Message): Task {
    match m
    case LeaderMessage(frames) => LeaderAck(frames)
    case PingMessage => PingCheck
    case TransferMessage => TransferRead
  }

  function Apply(s: State, e: Event): State {
    match e
    case Arrive(m) => s.(tasks := s.tasks + [Start(m)])
    case Advance(i, o) => if i < |s.tasks| then Step(s, i, o) else s
  }

  function Step(s: State, i: nat, o: Outcome): State
    requires i < |s.tasks|
  {
    var c, h := s.cells, s.history;
    match s.tasks[i]
    case LeaderAck(frames) => Goto(s, i, LeaderValidate(frames))
    case LeaderValidate(frames) =>
      if |frames| != 1 then Goto(s, i, Done(BadPayload))
      else if frames[0].Undecodable? then Goto(s, i, Done(BadPayload))
      else Goto(s, i, LeaderCompareExchange(frames[0].meta))
    case LeaderCompareExchange(meta) =>
      if c.started then Goto(s, i, Done(DuplicateDropped))
      else Goto(s.(cells := c.(started := true)), i, LeaderTakeLayout(meta))
    case LeaderTakeLayout(meta) =>
      if !c.deviceLayout then Goto(s, i, Done(LayoutConsumed))
      else
        State(c.(deviceLayout := false), h.(allocations := h.allocations + [meta]),
              s.tasks[i := Done(Spawned)] + [Allocate(meta)])
    case Allocate(meta) =>
      (match o.allocation
       case Some(handler) => Goto(s, i, Install(handler))
       case None => Goto(s, i, Done(AllocationFailed)))
    case Install(handler) =>
      Goto(State(c.(handlerCell := Some(handler)), h.(installs := h.installs + [handler]), s.tasks),
           i, SendHandler(handler))
    case SendHandler(handler) =>
      if c.handlerTx then
        Goto(State(c.(handlerTx := false), h.(sends := h.sends + [handler]), s.tasks), i, MarkReady(handler))
      else Goto(s, i, MarkReady(handler))
    case MarkReady(handler) =>
      Goto(s.(cells := c.(ready := true)), i, Done(Published(handler)))
    case PingCheck =>
      if c.ready then Goto(s, i, PingAck) else Goto(s, i, Done(PingDeferred))
    case PingAck =>
      if o.ackOk then Goto(s.(history := h.(acks := h.acks + 1)), i, PingReport)
      else Goto(s, i, Done(AckFailed))
    case PingReport =>
      if c.layoutReadyTx then
        Goto(State(c.(layoutReadyTx := false), h.(reports := h.reports + 1), s.tasks), i, Done(PingAcked))
      else Goto(s, i, Done(PingAcked))
    case TransferRead =>
      (match c.handlerCell
       case Some(handler) => Goto(s, i, Done(Dispatched(handler)))
       case None => Goto(s, i, Done(NotReady)))
    case Done(_) => s
  }

  function Goto(s: State, i: nat, t: Task): State
    requires i < |s.tasks|
  {
    s.(tasks := s.tasks[i := t])
  }

  function Exec(s: State, events: seq<Event>): State
    decreases |events|
  {
    if events == [] then s else Exec(Apply(s, events[0]), events[1..])
  }

  // ----- The invariant -----

  /** The task that won the compare-exchange, or the allocation it spawned, at any later point. */
  predicate Owns(t: Task) {
    t.LeaderTakeLayout? || t.Allocate? || t.Install? || t.SendHandler? || t.MarkReady? ||
    t == Done(AllocationFailed) || (t.Done? && t.end.Published?)
  }

  /** Shared state and history are a function of how far the owner has got. */
  predicate StageOk(c: Cells, h: History, t: Task)
    requires Owns(t)
  {
    match t
    case LeaderTakeLayout(_) =>
      c.deviceLayout && c.handlerCell == None && c.handlerTx && !c.ready &&
      h.allocations == [] && h.installs == [] && h.sends == []
    case Allocate(meta) =>
      !c.deviceLayout && c.handlerCell == None && c.handlerTx && !c.ready &&
      h.allocations == [meta] && h.installs == [] && h.sends == []
    case Install(_) =>
      !c.deviceLayout && c.handlerCell == None && c.handlerTx && !c.ready &&
      |h.allocations| == 1 && h.installs == [] && h.sends == []
    case SendHandler(handler) =>
      !c.deviceLayout && c.handlerCell == Some(handler) && c.handlerTx && !c.ready &&
      |h.allocations| == 1 && h.installs == [handler] && h.sends == []
    case MarkReady(handler) =>
      !c.deviceLayout && c.handlerCell == Some(handler) && !c.handlerTx && !c.ready &&
      |h.allocations| == 1 && h.installs == h.sends == [handler]
    case Done(Published(handler)) =>
      !c.deviceLayout && c.handlerCell == Some(handler) && !c.handlerTx && c.ready &&
      |h.allocations| == 1 && h.installs == h.sends == [handler]
    case Done(_) =>
      !c.deviceLayout && c.handlerCell == None && c.handlerTx && !c.ready &&
      |h.allocations| == 1 && h.installs == [] && h.sends == []
  }

  predicate TaskOk(c: Cells, t: Task) {
    (t == PingAck || t == PingReport || t == Done(PingAcked) ==> c.ready) &&
    t != Done(LayoutConsumed) &&
    (t.Done? && t.end.Dispatched? ==> c.handlerCell == Some(t.end.handler))
  }

  predicate AfterAck(t: Task) {
    t == PingReport || t == Done(PingAcked)
  }

  /** What holds of every task: at most one owner, and each task is consistent with the cells. */
  ghost predicate TasksInv(s: State, owner: Option<nat>) {
    (forall i :: 0 <= i < |s.tasks| ==> TaskOk(s.cells, s.tasks[i])) &&
    (forall i :: 0 <= i < |s.tasks| ==> (Owns(s.tasks[i]) <==> owner == Some(i))) &&
    (forall i :: 0 <= i < |s.tasks| && AfterAck(s.tasks[i]) ==> s.history.acks > 0)
  }

  /** What holds of the cells and the history, given the owner's stage. */
  predicate CoreInv(s: State, owner: Option<nat>) {
    var c, h := s.cells, s.history;
    c.started == owner.Some? &&
    (owner.None? ==>
       c == INITIAL.cells.(layoutReadyTx := c.layoutReadyTx) && h.allocations == [] && h.installs == [] && h.sends == []) &&
    (owner.Some? ==>
       owner.value < |s.tasks| && Owns(s.tasks[owner.value]) && StageOk(c, h, s.tasks[owner.value])) &&
    (h.acks > 0 ==> c.ready) &&
    h.reports == (if c.layoutReadyTx then 0 else 1) &&
    h.reports <= h.acks
  }

  /** The invariant, with the index of the owner if there is one. */
  ghost predicate InvWith(s: State, owner: Option<nat>) {
    TasksInv(s, owner) && CoreInv(s, owner)
  }

  ghost predicate Inv(s: State) {
    exists owner :: InvWith(s, owner)
  }

  /** Readiness is never withdrawn and a published handler is never replaced. */
  predicate Grows(c: Cells, c': Cells) {
    (c.ready ==> c'.ready) && (c.handlerCell.Some? ==> c'.handlerCell == c.handlerCell)
  }

  /** Owner after task i has become t. */
  function OwnerAfter(owner: Option<nat>, i: nat, t: Task): Option<nat> {
    if Owns(t) then Some(i) else if owner == Some(i) then None else owner
  }

  lemma ReplaceKeepsTasksInv(s: State, owner: Option<nat>, s': State, i: nat, t: Task)
    requires TasksInv(s, owner)
    requires i < |s.tasks| && s'.tasks == s.tasks[i := t]
    requires Grows(s.cells, s'.cells) && TaskOk(s'.cells, t)
    requires s.history.acks <= s'.history.acks
    requires AfterAck(t) ==> s'.history.acks > 0
    requires Owns(t) ==> owner == None || owner == Some(i)
    ensures TasksInv(s', OwnerAfter(owner, i, t))
  {
    forall j | 0 <= j < |s'.tasks| ensures TaskOk(s'.cells, s'.tasks[j]) {
      assert j != i ==> s'.tasks[j] == s.tasks[j];
    }
  }

  /** The layout is taken once, by the owner, and the spawned task takes over. */
  lemma SpawnKeepsTasksInv(s: State, i: nat, s': State, meta: LeaderMeta)
    requires TasksInv(s, Some(i))
    requires i < |s.tasks| && s'.tasks == s.tasks[i := Done(Spawned)] + [Allocate(meta)]
    requires Grows(s.cells, s'.cells) && s.history.acks == s'.history.acks
    ensures TasksInv(s', Some(|s.tasks|))
  {
    forall j | 0 <= j < |s'.tasks|
      ensures TaskOk(s'.cells, s'.tasks[j]) && (Owns(s'.tasks[j]) <==> j == |s.tasks|)
    {
      assert j != i && j < |s.tasks| ==> s'.tasks[j] == s.tasks[j];
    }
  }

  function NextOwner(s: State, owner: Option<nat>, e: Event): Option<nat> {
    if e.Advance? && e.task < |s.tasks| then
      match s.tasks[e.task]
      case LeaderCompareExchange(_) => if s.cells.started then owner else Some(e.task)
      case LeaderTakeLayout(_) => Some(|s.tasks|)
      case _ => owner
    else owner
  }

  lemma LeaderStepKeepsInv(s: State, owner: Option<nat>, i: nat, o: Outcome)
    requires InvWith(s, owner) && i < |s.tasks|
    requires s.tasks[i].LeaderAck? || s.tasks[i].LeaderValidate? || s.tasks[i].LeaderCompareExchange? ||
             s.tasks[i].LeaderTakeLayout?
    ensures InvWith(Step(s, i, o), NextOwner(s, owner, Advance(i, o)))
  {
    var s' := Step(s, i, o);
    assert Owns(s.tasks[i]) <==> owner == Some(i);
    if s.tasks[i].LeaderTakeLayout? {
      SpawnKeepsTasksInv(s, i, s', s.tasks[i].meta);
    } else {
      ReplaceKeepsTasksInv(s, owner, s', i, s'.tasks[i]);
    }
  }

  lemma AllocationStepKeepsInv(s: State, owner: Option<nat>, i: nat, o: Outcome)
    requires InvWith(s, owner) && i < |s.tasks|
    requires s.tasks[i].Allocate? || s.tasks[i].Install? || s.tasks[i].SendHandler? || s.tasks[i].MarkReady?
    ensures InvWith(Step(s, i, o), owner)
  {
    var s' := Step(s, i, o);
    assert Owns(s.tasks[i]) && owner == Some(i);
    ReplaceKeepsTasksInv(s, owner, s', i, s'.tasks[i]);
  }

  lemma RequestStepKeepsInv(s: State, owner: Option<nat>, i: nat, o: Outcome)
    requires InvWith(s, owner) && i < |s.tasks|
    requires s.tasks[i].PingCheck? || s.tasks[i].PingAck? || s.tasks[i].PingReport? || s.tasks[i].TransferRead?
    ensures InvWith(Step(s, i, o), owner)
  {
    var s' := Step(s, i, o);
    assert TaskOk(s.cells, s.tasks[i]);
    assert !Owns(s.tasks[i]);
    ReplaceKeepsTasksInv(s, owner, s', i, s'.tasks[i]);
  }

  lemma ApplyKeepsInv(s: State, owner: Option<nat>, e: Event)
    requires InvWith(s, owner)
    ensures InvWith(Apply(s, e), NextOwner(s, owner, e))
  {
    match e
    case Arrive(m) =>
      var s' := Apply(s, e);
      forall j | 0 <= j < |s'.tasks|
        ensures TaskOk(s'.cells, s'.tasks[j]) && (Owns(s'.tasks[j]) <==> owner == Some(j))
      {
        assert j < |s.tasks| ==> s'.tasks[j] == s.tasks[j];
      }
    case Advance(i, o) =>
      if i < |s.tasks| {
        match s.tasks[i]
        case LeaderAck(_) | LeaderValidate(_) | LeaderCompareExchange(_) | LeaderTakeLayout(_) =>
          LeaderStepKeepsInv(s, owner, i, o);
        case Allocate(_) | Install(_) | SendHandler(_) | MarkReady(_) =>
          AllocationStepKeepsInv(s, owner, i, o);
        case PingCheck | PingAck | PingReport | TransferRead =>
          RequestStepKeepsInv(s, owner, i, o);
        case Done(_) =>
      }
  }
}
