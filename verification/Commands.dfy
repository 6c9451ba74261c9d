// Durable commands: accepted once, claimed once, dispatched to the adapter at most once, and
// settled for good, across duplicate submissions, recoveries and crashes.
module Commands {
  import opened Wrappers
  import opened Leases
  import opened Lanes

  datatype State = Accepted | Dispatched | Running | Completed | Failed | Indeterminate

  datatype Command = Command(kind: string, scope: string, streamId: string, hash: string, state: State, dispatchCount: nat)

  // The events that command processing appends to the journal.
  datatype Event =
    | CommandStateEvent(streamId: string, commandId: string, state: State)
    | ControllerStateEvent(streamId: string, action: Action)

  // The durable tables. `order` lists the commands as they were created.
  datatype Store = Store(
    streams: set<string>,
    commands: map<string, Command>,
    order: seq<string>,
    leases: Table,
    log: seq<Event>)

  // The tables, the in-memory lanes, and every command ever handed to the adapter.
  datatype System = System(store: Store, lanes: Lanes, calls: seq<string>)

  datatype Submission = Submission(
    commandId: string, kind: string, scope: string, streamId: string, hash: string, leaseMutation: Option<Mutation>)

  datatype Outcome = Resolves | Rejects | Uncertain

  datatype Receipt = Receipt(state: State, duplicate: bool)

  datatype SubmitError = IdempotencyConflict | LeaseRefused(error: LeaseError) | StreamMissing

  const LOCAL_COMMANDS: set<string> := {"controller.acquire", "controller.takeover", "controller.release"}

  predicate Terminal(state: State) {
    state.Completed? || state.Failed? || state.Indeterminate?
  }

  // ----- The store -----

  function Accept(store: Store, sub: Submission): Store {
    var commands := store.commands[sub.commandId := Command(sub.kind, sub.scope, sub.streamId, sub.hash, Accepted, 0)];
    var log := store.log + [CommandStateEvent(sub.streamId, sub.commandId, Accepted)];
    store.(commands := commands, order := store.order + [sub.commandId],
           log := if sub.leaseMutation.None? then log
                  else log + [ControllerStateEvent(sub.streamId, sub.leaseMutation.value.action)])
  }

  predicate CanMove(store: Store, id: string, from: set<State>) {
    id in store.commands && store.commands[id].state in from
  }

  // transitionCommand, which answers null and changes nothing when the state is not in `from`.
  function Transition(store: Store, id: string, from: set<State>, to: State): Store {
    if !CanMove(store, id, from) then store
    else
      var c := store.commands[id];
      var count := if to.Dispatched? then c.dispatchCount + 1 else c.dispatchCount;
      store.(commands := store.commands[id := c.(state := to, dispatchCount := count)],
             log := store.log + [CommandStateEvent(c.streamId, id, to)])
  }

  ghost function Submitted(s: System, sub: Submission, newId: string): Result<(System, Receipt), SubmitError> {
    if sub.commandId in s.store.commands then
      if s.store.commands[sub.commandId].hash == sub.hash
      then Ok((s, Receipt(s.store.commands[sub.commandId].state, true))) else Err(IdempotencyConflict)
    else
      var leases := if sub.leaseMutation.None? then Ok(s.store.leases)
                    else Mutate(s.store.leases, sub.leaseMutation.value, newId);
      if leases.Err? then Err(LeaseRefused(leases.error))
      else if sub.streamId !in s.store.streams then Err(StreamMissing)
      else Ok((s.(store := Accept(s.store.(leases := leases.value), sub),
                  lanes := Enqueued(s.lanes, sub.scope, sub.commandId)),
               Receipt(Accepted, false)))
  }

  // ----- A command's task -----

  function IdOf(s: System, i: nat): string
    requires i < |s.lanes.tasks|
  {
    s.lanes.tasks[i].command
  }

  predicate At(s: System, i: nat, progress: Progress) {
    i < |s.lanes.tasks| && s.lanes.tasks[i].progress == progress
  }

  function ClaimStep(s: System, i: nat): System
    requires MayStart(s.lanes, i)
  {
    var next := if CanMove(s.store, IdOf(s, i), {Accepted}) then Claimed else Settled;
    s.(store := Transition(s.store, IdOf(s, i), {Accepted}, Dispatched), lanes := Moved(s.lanes, i, next))
  }

  function RunStep(s: System, i: nat): System
    requires At(s, i, Claimed)
  {
    s.(store := Transition(s.store, IdOf(s, i), {Dispatched}, Running), lanes := Moved(s.lanes, i, Started))
  }

  predicate IsLocal(s: System, i: nat)
    requires i < |s.lanes.tasks|
  {
    IdOf(s, i) in s.store.commands && s.store.commands[IdOf(s, i)].kind in LOCAL_COMMANDS
  }

  function CallStep(s: System, i: nat): System
    requires At(s, i, Started)
  {
    if IsLocal(s, i) then FinishedStep(s, i, Resolves)
    else s.(calls := s.calls + [IdOf(s, i)], lanes := Moved(s.lanes, i, Called))
  }

  // The transition that ends a task, whose result the callback ignores.
  function Ended(store: Store, id: string, outcome: Outcome): Store {
    match outcome
    case Resolves => Transition(store, id, {Running}, Completed)
    case Rejects => Transition(store, id, {Dispatched, Running}, Failed)
    case Uncertain => Transition(store, id, {Dispatched, Running}, Indeterminate)
  }

  function FinishedStep(s: System, i: nat, outcome: Outcome): System
    requires i < |s.lanes.tasks|
  {
    s.(store := Ended(s.store, IdOf(s, i), outcome), lanes := Moved(s.lanes, i, Settled))
  }

  // A store error inside a task. Before the claim it ends it; later it lands in the
  // handler, whose own transition succeeds (`handled`) or fails too.
  function FaultStep(s: System, i: nat, handled: bool): System
    requires i < |s.lanes.tasks|
  {
    if s.lanes.tasks[i].progress.Waiting? || !handled then s.(lanes := Moved(s.lanes, i, Settled))
    else FinishedStep(s, i, Rejects)
  }

  // ----- Recovery -----

  function MarkUncertain(store: Store, ids: seq<string>): Store {
    if ids == [] then store
    else
      var n := |ids| - 1;
      Transition(MarkUncertain(store, ids[..n]), ids[n], {Dispatched, Running}, Indeterminate)
  }

  function Requeued(lanes: Lanes, store: Store, ids: seq<string>): Lanes {
    if ids == [] then lanes
    else
      var n := |ids| - 1;
      var rest, id := Requeued(lanes, store, ids[..n]), ids[n];
      if CanMove(store, id, {Accepted}) then Enqueued(rest, store.commands[id].scope, id) else rest
  }

  function Recovered(s: System): System {
    var store := MarkUncertain(s.store, s.store.order);
    s.(store := store, lanes := Requeued(s.lanes, store, store.order))
  }

  // The process dies: the lanes vanish, the tables stay.
  function Crashed(s: System): System {
    s.(lanes := NO_LANES)
  }

  // The process dies in a recovery that has marked the first `marked` commands; each mark is a
  // transaction of its own.
  function Halted(s: System, marked: nat): System {
    var ids := if marked < |s.store.order| then s.store.order[..marked] else s.store.order;
    Crashed(s.(store := MarkUncertain(s.store, ids)))
  }

  // ----- The service -----

  class DurableCommandService {
    const streams: set<string>
    var commands: map<string, Command>
    var order: seq<string>
    var log: seq<Event>
    var calls: seq<string>
    const leases: LeaseTable
    const lanes: CommandLanes

    ghost function Contents(): System
      reads this, leases, lanes
    {
      System(Store(streams, commands, order, leases.leases, log), lanes.Contents(), calls)
    }

    constructor (streams: set<string>)
      ensures Contents() == System(Store(streams, map[], [], map[], []), NO_LANES, [])
      ensures fresh(leases) && fresh(lanes) && this.streams == streams
    {
      this.streams := streams;
      commands, order, log, calls := map[], [], [], [];
      leases := new LeaseTable();
      lanes := new CommandLanes();
    }

    method TransitionCommand(id: string, from: set<State>, to: State) returns (changed: bool)
      modifies this`commands, this`log
      ensures Contents() == old(Contents()).(store := Transition(old(Contents()).store, id, from, to))
      ensures changed == CanMove(old(Contents()).store, id, from)
    {
      if id !in commands || commands[id].state !in from { return false; }
      var dispatch := if to.Dispatched? then 1 else 0;
      var command := commands[id];
      commands := commands[id := command.(state := to, dispatchCount := command.dispatchCount + dispatch)];
      log := log + [CommandStateEvent(command.streamId, id, to)];
      changed := true;
    }

    // One transaction: the lease mutation, the command row and its events stand or fall together.
    method Submit(sub: Submission, newId: string) returns (r: Result<Receipt, SubmitError>)
      requires OneActive(leases.leases)
      modifies this, leases, lanes
      ensures OneActive(leases.leases)
      ensures var next := Submitted(old(Contents()), sub, newId);
              if next.Ok? then r == Ok(next.value.1) && Contents() == next.value.0
              else r == Err(next.error) && Contents() == old(Contents())
    {
      if sub.commandId in commands {
        var existing := commands[sub.commandId];
        if existing.hash != sub.hash { return Err(IdempotencyConflict); }
        return Ok(Receipt(existing.state, true));
      }
      var saved := leases.leases;
      if sub.leaseMutation.Some? {
        var mutated := leases.ApplyMutation(sub.leaseMutation.value, newId);
        if mutated.Err? { return Err(LeaseRefused(mutated.error)); }
      }
      if sub.streamId !in streams {
        leases.leases := saved;
        return Err(StreamMissing);
      }
      commands := commands[sub.commandId := Command(sub.kind, sub.scope, sub.streamId, sub.hash, Accepted, 0)];
      order := order + [sub.commandId];
      log := log + [CommandStateEvent(sub.streamId, sub.commandId, Accepted)];
      if sub.leaseMutation.Some? {
        log := log + [ControllerStateEvent(sub.streamId, sub.leaseMutation.value.action)];
      }
      var _ := lanes.Enqueue(sub.scope, sub.commandId);
      r := Ok(Receipt(Accepted, false));
    }

    // A task's callback, from its start to the adapter's promise. It has no await in between.
    method Dispatch(i: nat)
      requires MayStart(lanes.Contents(), i)
      modifies this, lanes
      ensures Contents() == Dispatched'(old(Contents()), i)
    {
      var id := lanes.tasks[i].command;
      var claimed := TransitionCommand(id, {Accepted}, Dispatched);
      if !claimed {
        lanes.Move(i, Settled);
        return;
      }
      lanes.Move(i, Claimed);
      var _ := TransitionCommand(id, {Dispatched}, Running);
      lanes.Move(i, Started);
      if commands[id].kind !in LOCAL_COMMANDS {
        calls := calls + [id];
        lanes.Move(i, Called);
      } else {
        var _ := TransitionCommand(id, {Running}, Completed);
        lanes.Move(i, Settled);
      }
    }

    // The rest of the callback, once the adapter's promise has settled.
    method Settle(i: nat, outcome: Outcome)
      requires At(Contents(), i, Called)
      modifies this`commands, this`log, lanes`tasks
      ensures Contents() == FinishedStep(old(Contents()), i, outcome)
      ensures var id := old(lanes.tasks)[i].command;
              id in old(commands) && old(commands)[id].state.Running? ==>
                var state := if outcome.Resolves? then Completed else if outcome.Rejects? then Failed else Indeterminate;
                && commands == old(commands)[id := old(commands)[id].(state := state)]
                && log == old(log) + [CommandStateEvent(old(commands)[id].streamId, id, state)]
    {
      var id := lanes.tasks[i].command;
      if outcome.Resolves? {
        var _ := TransitionCommand(id, {Running}, Completed);
      } else {
        var _ := TransitionCommand(id, {Dispatched, Running}, if outcome.Uncertain? then Indeterminate else Failed);
      }
      lanes.Move(i, Settled);
    }

    method Recover()
      modifies this`commands, this`log, lanes
      ensures Contents() == Recovered(old(Contents()))
    {
      ghost var before := Contents();
      for n := 0 to |order|
        invariant order == before.store.order && lanes.Contents() == before.lanes && calls == before.calls
        invariant leases.leases == before.store.leases
        invariant Contents().store == MarkUncertain(before.store, order[..n])
      {
        assert order[..n + 1][..n] == order[..n];
        var _ := TransitionCommand(order[n], {Dispatched, Running}, Indeterminate);
      }
      assert order[..|order|] == order;
      ghost var store := Contents().store;
      for n := 0 to |order|
        invariant Contents().store == store && calls == before.calls
        invariant lanes.Contents() == Requeued(before.lanes, store, order[..n])
      {
        assert order[..n + 1][..n] == order[..n];
        if order[n] in commands && commands[order[n]].state.Accepted? {
          var _ := lanes.Enqueue(commands[order[n]].scope, order[n]);
        }
      }
    }
  }

  // A claim and what follows it without an await.
  function Dispatched'(s: System, i: nat): System
    requires MayStart(s.lanes, i)
  {
    var claimed := ClaimStep(s, i);
    if At(claimed, i, Claimed) then CallStep(RunStep(claimed, i), i) else claimed
  }

  // ----- Runs -----

  datatype Op =
    | SubmitOp(sub: Submission, newId: string)
    | ClaimOp(i: nat)
    | RunOp(i: nat)
    | CallOp(i: nat)
    | FinishOp(i: nat, outcome: Outcome)
    | FaultOp(i: nat, handled: bool)
    | FinallyOp(i: nat)
    | RecoverOp
    | HaltOp(marked: nat)
    | CrashOp

  ghost predicate Enabled(s: System, op: Op) {
    match op
    case SubmitOp(sub, newId) => Submitted(s, sub, newId).Ok?
    case ClaimOp(i) => MayStart(s.lanes, i)
    case RunOp(i) => At(s, i, Claimed)
    case CallOp(i) => At(s, i, Started)
    case FinishOp(i, _) => At(s, i, Called)
    case FaultOp(i, _) => MayStart(s.lanes, i) || At(s, i, Claimed) || At(s, i, Started) || At(s, i, Called)
    case FinallyOp(i) => At(s, i, Settled)
    case RecoverOp => true
    case HaltOp(_) => true
    case CrashOp => true
  }

  // Tasks of different lanes interleave between any two of their steps, which allows more runs
  // than the callbacks do.
  ghost function Apply(s: System, op: Op): System {
    if !Enabled(s, op) then s
    else match op
      case SubmitOp(sub, newId) => Submitted(s, sub, newId).value.0
      case ClaimOp(i) => ClaimStep(s, i)
      case RunOp(i) => RunStep(s, i)
      case CallOp(i) => CallStep(s, i)
      case FinishOp(i, outcome) => FinishedStep(s, i, outcome)
      case FaultOp(i, handled) => FaultStep(s, i, handled)
      case FinallyOp(i) => s.(lanes := Forgotten(s.lanes, i))
      case RecoverOp => Recovered(s)
      case HaltOp(marked) => Halted(s, marked)
      case CrashOp => Crashed(s)
  }

  ghost function Run(s: System, ops: seq<Op>): System {
    if ops == [] then s else Apply(Run(s, ops[..|ops| - 1]), ops[|ops| - 1])
  }

  function Start(streams: set<string>): System {
    System(Store(streams, map[], [], map[], []), NO_LANES, [])
  }
}
