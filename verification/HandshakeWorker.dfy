/**
  The worker as an object: the cells are fields that the handlers change in place, one
  atomic step per call.  Each method is proved to take exactly the step of the transition
  system, so everything proved about its runs holds of the object.
 */
module HandshakeWorker {
  import opened Wrappers
  import opened Handshake

  class Worker {
    var started: bool
    var deviceLayout: bool
    var handlerCell: Option<Handler>
    var handlerTx: bool
    var readyForPing: bool
    var layoutReadyTx: bool
    var tasks: seq<Task>
    ghost var history: History

    ghost function Snapshot(): State
      reads this
    {
      State(Cells(started, deviceLayout, handlerCell, handlerTx, readyForPing, layoutReadyTx), history, tasks)
    }

    ghost predicate Valid()
      reads this
    {
      Inv(Snapshot())
    }

    constructor ()
      ensures Snapshot() == INITIAL && Valid()
    {
      started, deviceLayout, handlerCell := false, true, None;
      handlerTx, readyForPing, layoutReadyTx := true, false, true;
      tasks := [];
      history := History([], [], [], 0, 0);
      new;
      assert InvWith(Snapshot(), None);
    }

    method Deliver(m: Message)
      requires Valid()
      modifies this
      ensures Snapshot() == Apply(old(Snapshot()), Arrive(m)) && Valid()
    {
      ghost var owner :| InvWith(Snapshot(), owner);
      ApplyKeepsInv(Snapshot(), owner, Arrive(m));
      tasks := tasks + [Start(m)];
    }

    method LeaderStep(i: nat, o: Outcome)
      requires Valid() && i < |tasks|
      requires tasks[i].LeaderAck? || tasks[i].LeaderValidate? || tasks[i].LeaderCompareExchange? ||
               tasks[i].LeaderTakeLayout?
      modifies this
      ensures Snapshot() == Apply(old(Snapshot()), Advance(i, o)) && Valid()
    {
      ghost var owner :| InvWith(Snapshot(), owner);
      ApplyKeepsInv(Snapshot(), owner, Advance(i, o));
      match tasks[i] {
        case LeaderAck(frames) =>
          tasks := tasks[i := LeaderValidate(frames)];
        case LeaderValidate(frames) =>
          if |frames| != 1 || frames[0].Undecodable? {
            tasks := tasks[i := Done(BadPayload)];
          } else {
            tasks := tasks[i := LeaderCompareExchange(frames[0].meta)];
          }
        case LeaderCompareExchange(meta) =>
          if started {
            tasks := tasks[i := Done(DuplicateDropped)];
          } else {
            started := true;
            tasks := tasks[i := LeaderTakeLayout(meta)];
          }
        case LeaderTakeLayout(meta) =>
          var present := deviceLayout;
          deviceLayout := false;
          if present {
            history := history.(allocations := history.allocations + [meta]);
          }
          tasks := tasks[i := if present then Done(Spawned) else Done(LayoutConsumed)] +
                   if present then [Allocate(meta)] else [];
      }
    }

    method AllocationStep(i: nat, o: Outcome)
      requires Valid() && i < |tasks|
      requires tasks[i].Allocate? || tasks[i].Install? || tasks[i].SendHandler? || tasks[i].MarkReady?
      modifies this
      ensures Snapshot() == Apply(old(Snapshot()), Advance(i, o)) && Valid()
    {
      ghost var owner :| InvWith(Snapshot(), owner);
      ApplyKeepsInv(Snapshot(), owner, Advance(i, o));
      match tasks[i] {
        case Allocate(_) =>
          if o.allocation.Some? {
            tasks := tasks[i := Install(o.allocation.value)];
          } else {
            tasks := tasks[i := Done(AllocationFailed)];
          }
        case Install(handler) =>
          handlerCell := Some(handler);
          history := history.(installs := history.installs + [handler]);
          tasks := tasks[i := SendHandler(handler)];
        case SendHandler(handler) =>
          if handlerTx {
            handlerTx := false;
            history := history.(sends := history.sends + [handler]);
          }
          tasks := tasks[i := Task.MarkReady(handler)];
        case MarkReady(handler) =>
          readyForPing := true;
          tasks := tasks[i := Done(Published(handler))];
      }
    }

    method PingStep(i: nat, o: Outcome)
      requires Valid() && i < |tasks|
      requires tasks[i].PingCheck? || tasks[i].PingAck? || tasks[i].PingReport?
      modifies this
      ensures Snapshot() == Apply(old(Snapshot()), Advance(i, o)) && Valid()
    {
      ghost var owner :| InvWith(Snapshot(), owner);
      ApplyKeepsInv(Snapshot(), owner, Advance(i, o));
      match tasks[i] {
        case PingCheck =>
          tasks := tasks[i := if readyForPing then PingAck else Done(PingDeferred)];
        case PingAck =>
          if o.ackOk {
            history := history.(acks := history.acks + 1);
            tasks := tasks[i := PingReport];
          } else {
            tasks := tasks[i := Done(AckFailed)];
          }
        case PingReport =>
          if layoutReadyTx {
            layoutReadyTx := false;
            history := history.(reports := history.reports + 1);
          }
          tasks := tasks[i := Done(PingAcked)];
      }
    }

    method TransferStep(i: nat, o: Outcome)
      requires Valid() && i < |tasks| && tasks[i].TransferRead?
      modifies this
      ensures Snapshot() == Apply(old(Snapshot()), Advance(i, o)) && Valid()
    {
      ghost var owner :| InvWith(Snapshot(), owner);
      ApplyKeepsInv(Snapshot(), owner, Advance(i, o));
      tasks := tasks[i := if handlerCell.Some? then Done(Dispatched(handlerCell.value)) else Done(NotReady)];
    }

    /** One event of the schedule. */
    method Handle(e: Event)
      requires Valid()
      modifies this
      ensures Snapshot() == Apply(old(Snapshot()), e) && Valid()
    {
      match e {
        case Arrive(m) => Deliver(m);
        case Advance(i, o) =>
          if i < |tasks| {
            match tasks[i] {
              case LeaderAck(_) | LeaderValidate(_) | LeaderCompareExchange(_) | LeaderTakeLayout(_) =>
                LeaderStep(i, o);
              case Allocate(_) | Install(_) | SendHandler(_) | MarkReady(_) =>
                AllocationStep(i, o);
              case PingCheck | PingAck | PingReport => PingStep(i, o);
              case TransferRead => TransferStep(i, o);
              case Done(_) =>
            }
          }
      }
    }

    /** The worker under a whole schedule. */
    method Serve(events: seq<Event>)
      requires Valid()
      modifies this
      ensures Snapshot() == Exec(old(Snapshot()), events) && Valid()
    {
      for k := 0 to |events|
        invariant Valid()
        invariant Exec(Snapshot(), events[k..]) == Exec(old(Snapshot()), events)
      {
        assert events[k..][0] == events[k] && events[k..][1..] == events[k + 1..];
        Handle(events[k]);
      }
    }
  }
}
