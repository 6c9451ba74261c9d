// Why a command is in the state that it is in: over every run its states, its events, the leases and the
// adapter's calls are those that the operations brought about, and no others.
module CommandOutcomes {
  import opened Wrappers
  import Leases
  import opened Lanes
  import opened Commands
  import opened CommandProofs

  // ----- One operation, one command -----

  // Task `i` works for command `id`, which is in one of the states.
  predicate Serves(s: System, i: nat, id: string, states: set<State>) {
    i < |s.lanes.tasks| && s.lanes.tasks[i].command == id && id in s.store.commands && s.store.commands[id].state in states
  }

  // A submission that the store takes as a new command.
  ghost predicate TakesNew(s: System, sub: Submission, newId: string) {
    && sub.commandId !in s.store.commands && sub.streamId in s.store.streams
    && (sub.leaseMutation.Some? ==> Leases.Mutate(s.store.leases, sub.leaseMutation.value, newId).Ok?)
  }

  // The state that an operation puts a command in, if it moves it.
  ghost function Fate(s: System, op: Op, id: string): Option<State> {
    match op
    case SubmitOp(sub, newId) => if sub.commandId == id && TakesNew(s, sub, newId) then Some(Accepted) else None
    case ClaimOp(i) => if MayStart(s.lanes, i) && Serves(s, i, id, {Accepted}) then Some(Dispatched) else None
    case RunOp(i) => if At(s, i, Claimed) && Serves(s, i, id, {Dispatched}) then Some(Running) else None
    case CallOp(i) =>
      if At(s, i, Started) && Serves(s, i, id, {Running})
         && s.store.commands[id].kind in {"controller.acquire", "controller.takeover", "controller.release"}
      then Some(Completed) else None
    case FinishOp(i, outcome) =>
      if !At(s, i, Called) || !Serves(s, i, id, {Running}) then None
      else if outcome.Resolves? then Some(Completed) else if outcome.Rejects? then Some(Failed) else Some(Indeterminate)
    case FaultOp(i, handled) =>
      if handled && (At(s, i, Claimed) || At(s, i, Started) || At(s, i, Called)) && Serves(s, i, id, {Dispatched, Running})
      then Some(Failed) else None
    case RecoverOp => if InFlight(s, id) then Some(Indeterminate) else None
    case HaltOp(marked) =>
      if InFlight(s, id) && exists k :: 0 <= k < marked && k < |s.store.order| && s.store.order[k] == id
      then Some(Indeterminate) else None
    case _ => None
  }

  predicate InFlight(s: System, id: string) {
    id in s.store.commands && s.store.commands[id].state in {Dispatched, Running}
  }

  // The events of one command in a log.
  function EventsOf(log: seq<Event>, id: string): seq<Event> {
    if log == [] then []
    else
      var last, rest := log[|log| - 1], EventsOf(log[..|log| - 1], id);
      if last.CommandStateEvent? && last.commandId == id then rest + [last] else rest
  }

  // The events of controllers in a log.
  function ControllerEvents(log: seq<Event>): seq<Event> {
    if log == [] then []
    else
      var last, rest := log[|log| - 1], ControllerEvents(log[..|log| - 1]);
      if last.ControllerStateEvent? then rest + [last] else rest
  }

  lemma OneMoreEvent(log: seq<Event>, event: Event, id: string)
    ensures EventsOf(log + [event], id)
         == if event.CommandStateEvent? && event.commandId == id then EventsOf(log, id) + [event] else EventsOf(log, id)
    ensures ControllerEvents(log + [event])
         == if event.ControllerStateEvent? then ControllerEvents(log) + [event] else ControllerEvents(log)
  {
    assert (log + [event])[..|log|] == log;
  }

  // What moving a command to some state, or not moving it, makes of its row and of its events.
  ghost predicate Became(before: Store, after: Store, id: string, to: Option<State>) {
    && (id in after.commands <==> id in before.commands)
    && (id in before.commands ==>
          var c := before.commands[id];
          if to.None? then after.commands[id] == c && EventsOf(after.log, id) == EventsOf(before.log, id)
          else && after.commands[id]
                  == c.(state := to.value, dispatchCount := c.dispatchCount + if to.value.Dispatched? then 1 else 0)
               && EventsOf(after.log, id) == EventsOf(before.log, id) + [CommandStateEvent(c.streamId, id, to.value)])
    && (id !in before.commands ==> EventsOf(after.log, id) == EventsOf(before.log, id))
  }

  lemma TransitionFate(store: Store, moved: string, from: set<State>, to: State, id: string)
    ensures Became(store, Transition(store, moved, from, to), id,
                   if moved == id && id in store.commands && store.commands[id].state in from then Some(to) else None)
  {
    if CanMove(store, moved, from) {
      OneMoreEvent(store.log, CommandStateEvent(store.commands[moved].streamId, moved, to), id);
    }
  }

  lemma EndedFate(store: Store, moved: string, outcome: Outcome, id: string)
    requires moved in store.commands ==> !store.commands[moved].state.Dispatched? || !outcome.Uncertain?
    ensures var reached := moved == id && id in store.commands;
            Became(store, Ended(store, moved, outcome), id,
                   if !reached then None
                   else if outcome.Rejects? then if store.commands[id].state in {Dispatched, Running} then Some(Failed) else None
                   else if !store.commands[id].state.Running? then None
                   else if outcome.Resolves? then Some(Completed) else Some(Indeterminate))
  {
    match outcome
    case Resolves => TransitionFate(store, moved, {Running}, Completed, id);
    case Rejects => TransitionFate(store, moved, {Dispatched, Running}, Failed, id);
    case Uncertain => TransitionFate(store, moved, {Dispatched, Running}, Indeterminate, id);
  }

  lemma {:induction false} MarkFate(store: Store, ids: seq<string>, id: string)
    ensures Became(store, MarkUncertain(store, ids), id,
                   if id in ids && id in store.commands && store.commands[id].state in {Dispatched, Running}
                   then Some(Indeterminate) else None)
  {
    if ids != [] {
      var n := |ids| - 1;
      MarkFate(store, ids[..n], id);
      TransitionFate(MarkUncertain(store, ids[..n]), ids[n], {Dispatched, Running}, Indeterminate, id);
      assert id in ids <==> id in ids[..n] || id == ids[n];
    }
  }

  // ----- Submission -----

  // A new command is accepted exactly when nothing stands against it, in one step with its lease.
  lemma SubmitExact(s: System, sub: Submission, newId: string)
    requires sub.commandId !in s.store.commands
    ensures Submitted(s, sub, newId).Ok? <==> TakesNew(s, sub, newId)
    ensures TakesNew(s, sub, newId) ==>
              var (s', receipt) := Submitted(s, sub, newId).value;
              var accepted := CommandStateEvent(sub.streamId, sub.commandId, Accepted);
              && receipt == Receipt(Accepted, false) && s'.calls == s.calls
              && s'.store.commands
              == s.store.commands[sub.commandId := Command(sub.kind, sub.scope, sub.streamId, sub.hash, Accepted, 0)]
              && s'.store.order == s.store.order + [sub.commandId]
              && (match sub.leaseMutation
                  case None => s'.store.leases == s.store.leases && s'.store.log == s.store.log + [accepted]
                  case Some(m) =>
                    && Leases.Mutate(s.store.leases, m, newId) == Ok(s'.store.leases)
                    && s'.store.log == s.store.log + [accepted] + [ControllerStateEvent(sub.streamId, m.action)])
  {
  }

  lemma SubmitFate(s: System, sub: Submission, newId: string, id: string)
    requires TakesNew(s, sub, newId)
    ensures var s' := Submitted(s, sub, newId).value.0;
            if id == sub.commandId
            then && id in s'.store.commands
                 && s'.store.commands[id] == Command(sub.kind, sub.scope, sub.streamId, sub.hash, Accepted, 0)
                 && EventsOf(s'.store.log, id) == EventsOf(s.store.log, id) + [CommandStateEvent(sub.streamId, id, Accepted)]
            else Became(s.store, s'.store, id, None)
    ensures ControllerEvents(Submitted(s, sub, newId).value.0.store.log)
         == ControllerEvents(s.store.log)
          + if sub.leaseMutation.None? then [] else [ControllerStateEvent(sub.streamId, sub.leaseMutation.value.action)]
  {
    SubmitExact(s, sub, newId);
    var accepted := CommandStateEvent(sub.streamId, sub.commandId, Accepted);
    OneMoreEvent(s.store.log, accepted, id);
    if sub.leaseMutation.Some? {
      OneMoreEvent(s.store.log + [accepted], ControllerStateEvent(sub.streamId, sub.leaseMutation.value.action), id);
    }
  }

  // ----- Every operation -----

  ghost predicate Follows(s: System, s': System, op: Op, id: string) {
    if Fate(s, op, id) == Some(Accepted)
    then && id in s'.store.commands && op.SubmitOp?
         && s'.store.commands[id] == Command(op.sub.kind, op.sub.scope, op.sub.streamId, op.sub.hash, Accepted, 0)
         && EventsOf(s'.store.log, id) == EventsOf(s.store.log, id) + [CommandStateEvent(op.sub.streamId, id, Accepted)]
    else Became(s.store, s'.store, id, Fate(s, op, id))
  }

  lemma ClaimFate(s: System, i: nat, id: string)
    requires MayStart(s.lanes, i)
    ensures Follows(s, ClaimStep(s, i), ClaimOp(i), id)
  {
    TransitionFate(s.store, IdOf(s, i), {Accepted}, Dispatched, id);
  }

  lemma RunFate(s: System, i: nat, id: string)
    requires At(s, i, Claimed)
    ensures Follows(s, RunStep(s, i), RunOp(i), id)
  {
    TransitionFate(s.store, IdOf(s, i), {Dispatched}, Running, id);
  }

  lemma CallFate(s: System, i: nat, id: string)
    requires At(s, i, Started)
    ensures Follows(s, CallStep(s, i), CallOp(i), id)
  {
    EndedFate(s.store, IdOf(s, i), Resolves, id);
  }

  lemma FinishFate(s: System, i: nat, outcome: Outcome, id: string)
    requires Valid(s) && At(s, i, Called)
    ensures Follows(s, FinishedStep(s, i, outcome), FinishOp(i, outcome), id)
  {
    assert TaskOk(s, i);
    EndedFate(s.store, IdOf(s, i), outcome, id);
  }

  lemma FaultFate(s: System, i: nat, handled: bool, id: string)
    requires Enabled(s, FaultOp(i, handled))
    ensures Follows(s, FaultStep(s, i, handled), FaultOp(i, handled), id)
  {
    EndedFate(s.store, IdOf(s, i), Rejects, id);
  }

  lemma TaskFate(s: System, op: Op, id: string)
    requires Valid(s) && Enabled(s, op) && (op.ClaimOp? || op.RunOp? || op.CallOp? || op.FinishOp? || op.FaultOp?)
    ensures Follows(s, Apply(s, op), op, id)
  {
    match op
    case ClaimOp(i) => ClaimFate(s, i, id);
    case RunOp(i) => RunFate(s, i, id);
    case CallOp(i) => CallFate(s, i, id);
    case FinishOp(i, outcome) => FinishFate(s, i, outcome, id);
    case FaultOp(i, handled) => FaultFate(s, i, handled, id);
  }

  lemma StepFate(s: System, op: Op, id: string)
    requires Valid(s)
    ensures Follows(s, Apply(s, op), op, id)
  {
    match op
    case SubmitOp(sub, newId) =>
      if sub.commandId !in s.store.commands {
        SubmitExact(s, sub, newId);
        if TakesNew(s, sub, newId) {
          SubmitFate(s, sub, newId, id);
        }
      }
    case RecoverOp =>
      MarkFate(s.store, s.store.order, id);
    case HaltOp(marked) =>
      var ids := if marked < |s.store.order| then s.store.order[..marked] else s.store.order;
      MarkFate(s.store, ids, id);
    case FinallyOp(_) =>
    case CrashOp =>
    case _ =>
      if Enabled(s, op) {
        TaskFate(s, op, id);
      }
  }

  // ----- Every run -----

  // The states that the operations of a run put a command in, one after the other.
  ghost function Trail(start: System, ops: seq<Op>, id: string): seq<State> {
    if ops == [] then []
    else
      var before := ops[..|ops| - 1];
      var fate := Fate(Run(start, before), ops[|ops| - 1], id);
      if fate.Some? then Trail(start, before, id) + [fate.value] else Trail(start, before, id)
  }

  function EventsFor(streamId: string, id: string, states: seq<State>): seq<Event> {
    if states == [] then []
    else EventsFor(streamId, id, states[..|states| - 1]) + [CommandStateEvent(streamId, id, states[|states| - 1])]
  }

  // A command is there once it has been through some state, is in the last one, and its events are those
  // states, in order, each once, on its own stream.
  ghost predicate WentThrough(s: System, id: string, trail: seq<State>) {
    && (id in s.store.commands <==> trail != [])
    && (id in s.store.commands ==>
          && s.store.commands[id].state == trail[|trail| - 1]
          && EventsOf(s.store.log, id) == EventsFor(s.store.commands[id].streamId, id, trail))
    && (id !in s.store.commands ==> EventsOf(s.store.log, id) == [])
  }

  lemma OneMoreState(s: System, s': System, op: Op, id: string, trail: seq<State>)
    requires WentThrough(s, id, trail) && Follows(s, s', op, id)
    requires Fate(s, op, id).Some? && !Fate(s, op, id).value.Accepted? ==> id in s.store.commands
    requires Fate(s, op, id) == Some(Accepted) ==> id !in s.store.commands
    ensures WentThrough(s', id, if Fate(s, op, id).Some? then trail + [Fate(s, op, id).value] else trail)
  {
    var fate := Fate(s, op, id);
    if fate.Some? {
      var longer := trail + [fate.value];
      assert longer[..|longer| - 1] == trail;
    }
  }

  lemma TrailStep(s: System, op: Op, id: string, trail: seq<State>)
    requires Valid(s) && WentThrough(s, id, trail)
    ensures WentThrough(Apply(s, op), id, if Fate(s, op, id).Some? then trail + [Fate(s, op, id).value] else trail)
  {
    StepFate(s, op, id);
    OneMoreState(s, Apply(s, op), op, id, trail);
  }

  // Over every run a command's state and its events are what the operations made of it.
  lemma {:induction false} TrailExactly(streams: set<string>, ops: seq<Op>, id: string)
    ensures WentThrough(Run(Start(streams), ops), id, Trail(Start(streams), ops, id))
  {
    if ops != [] {
      var before := ops[..|ops| - 1];
      TrailExactly(streams, before, id);
      StartIsValid(streams, before);
      TrailStep(Run(Start(streams), before), ops[|ops| - 1], id, Trail(Start(streams), before, id));
    }
  }

  lemma StartIsValid(streams: set<string>, ops: seq<Op>)
    ensures Valid(Run(Start(streams), ops))
  {
    assert LanesOk(NO_LANES);
    RunIsValid(Start(streams), ops);
  }

  // Operation `k` of the run put the command in that state.
  ghost predicate Caused(start: System, ops: seq<Op>, k: nat, id: string, state: State)
    requires k < |ops|
  {
    Fate(Run(start, ops[..k]), ops[k], id) == Some(state)
  }

  lemma CauseCarriesOn(start: System, ops: seq<Op>, k: nat, id: string, state: State)
    requires k + 1 < |ops|
    ensures Caused(start, ops, k, id, state) <==> Caused(start, ops[..|ops| - 1], k, id, state)
  {
    assert ops[..|ops| - 1][..k] == ops[..k];
  }

  ghost predicate IsIn(s: System, id: string, state: State) {
    id in s.store.commands && s.store.commands[id].state == state
  }

  lemma TerminalStep(s: System, op: Op, id: string, state: State)
    requires Valid(s) && Terminal(state)
    ensures IsIn(Apply(s, op), id, state) <==> IsIn(s, id, state) || Fate(s, op, id) == Some(state)
  {
    StepFate(s, op, id);
  }

  // A state that is never left is the command's state if and only if some operation put it there.
  lemma {:induction false} TerminalExactly(streams: set<string>, ops: seq<Op>, id: string, state: State)
    requires Terminal(state)
    ensures IsIn(Run(Start(streams), ops), id, state)
       <==> exists k :: 0 <= k < |ops| && Caused(Start(streams), ops, k, id, state)
  {
    if ops != [] {
      var n := |ops| - 1;
      var before, start := ops[..n], Start(streams);
      TerminalExactly(streams, before, id, state);
      StartIsValid(streams, before);
      TerminalStep(Run(start, before), ops[n], id, state);
      assert Caused(start, ops, n, id, state) <==> Fate(Run(start, before), ops[n], id) == Some(state);
      forall k | 0 <= k < n ensures Caused(start, ops, k, id, state) <==> Caused(start, before, k, id, state) {
        CauseCarriesOn(start, ops, k, id, state);
      }
    }
  }

  // ----- The causes of each final state -----

  // The answer of the adapter to the call made by task `i` reaches command `id` while it is running.
  ghost predicate Reaches(s: System, i: nat, id: string) {
    At(s, i, Called) && s.lanes.tasks[i].command == id && IsIn(s, id, Running)
  }

  // A store error strikes task `i` of command `id` between its claim and its end.
  ghost predicate Strikes(s: System, i: nat, id: string) {
    && i < |s.lanes.tasks| && s.lanes.tasks[i].command == id && InFlight(s, id)
    && (s.lanes.tasks[i].progress.Claimed? || s.lanes.tasks[i].progress.Started? || s.lanes.tasks[i].progress.Called?)
  }

  ghost predicate IsLocalCommand(s: System, id: string) {
    id in s.store.commands && s.store.commands[id].kind in {"controller.acquire", "controller.takeover", "controller.release"}
  }

  // The adapter resolves the call, or a command of the bridge itself comes to the end of its callback.
  ghost predicate Completes(s: System, op: Op, id: string) {
    || (op.FinishOp? && op.outcome.Resolves? && Reaches(s, op.i, id))
    || (op.CallOp? && IsLocalCommand(s, id) && At(s, op.i, Started) && s.lanes.tasks[op.i].command == id && IsIn(s, id, Running))
  }

  // The adapter rejects the call, or the handler catches a store error.
  ghost predicate Fails(s: System, op: Op, id: string) {
    || (op.FinishOp? && op.outcome.Rejects? && Reaches(s, op.i, id))
    || (op.FaultOp? && op.handled && Strikes(s, op.i, id))
  }

  // The adapter cannot say, or a recovery finds the command in flight, be it one that dies half-way.
  ghost predicate LosesTrack(s: System, op: Op, id: string) {
    || (op.FinishOp? && op.outcome.Uncertain? && Reaches(s, op.i, id))
    || (op.RecoverOp? && InFlight(s, id))
    || (op.HaltOp? && InFlight(s, id)
        && exists k :: 0 <= k < op.marked && k < |s.store.order| && s.store.order[k] == id)
  }

  lemma CauseOfEach(s: System, op: Op, id: string)
    ensures Fate(s, op, id) == Some(Completed) <==> Completes(s, op, id)
    ensures Fate(s, op, id) == Some(Failed) <==> Fails(s, op, id)
    ensures Fate(s, op, id) == Some(Indeterminate) <==> LosesTrack(s, op, id)
  {
  }

  // Over every run a command is completed, failed or indeterminate if and only if that befell it.
  lemma OutcomesExactly(streams: set<string>, ops: seq<Op>, id: string)
    ensures var s, start := Run(Start(streams), ops), Start(streams);
            && (IsIn(s, id, Completed) <==> exists k :: 0 <= k < |ops| && Completes(Run(start, ops[..k]), ops[k], id))
            && (IsIn(s, id, Failed) <==> exists k :: 0 <= k < |ops| && Fails(Run(start, ops[..k]), ops[k], id))
            && (IsIn(s, id, Indeterminate) <==> exists k :: 0 <= k < |ops| && LosesTrack(Run(start, ops[..k]), ops[k], id))
  {
    TerminalExactly(streams, ops, id, Completed);
    TerminalExactly(streams, ops, id, Failed);
    TerminalExactly(streams, ops, id, Indeterminate);
    forall k | 0 <= k < |ops|
      ensures var s := Run(Start(streams), ops[..k]);
              && (Caused(Start(streams), ops, k, id, Completed) <==> Completes(s, ops[k], id))
              && (Caused(Start(streams), ops, k, id, Failed) <==> Fails(s, ops[k], id))
              && (Caused(Start(streams), ops, k, id, Indeterminate) <==> LosesTrack(s, ops[k], id))
    {
      CauseOfEach(Run(Start(streams), ops[..k]), ops[k], id);
    }
  }

  // ----- What a command is -----

  // The submission that the store took for a command.
  ghost function SubmissionOf(start: System, ops: seq<Op>, id: string): Option<Submission> {
    if ops == [] then None
    else
      var before, op := ops[..|ops| - 1], ops[|ops| - 1];
      if op.SubmitOp? && op.sub.commandId == id && TakesNew(Run(start, before), op.sub, op.newId) then Some(op.sub)
      else SubmissionOf(start, before, id)
  }

  ghost predicate IsSubmitted(s: System, id: string, sub: Option<Submission>) {
    && (id in s.store.commands <==> sub.Some?)
    && (sub.Some? ==>
          var c := s.store.commands[id];
          c.kind == sub.value.kind && c.scope == sub.value.scope && c.streamId == sub.value.streamId && c.hash == sub.value.hash)
  }

  lemma SubmittedStep(s: System, op: Op, id: string, sub: Option<Submission>)
    requires Valid(s) && IsSubmitted(s, id, sub)
    ensures IsSubmitted(Apply(s, op), id,
              if op.SubmitOp? && op.sub.commandId == id && TakesNew(s, op.sub, op.newId) then Some(op.sub) else sub)
  {
    StepFate(s, op, id);
  }

  // Over every run the commands are those that were submitted and taken, with the kind, scope, stream and
  // hash of that submission.
  lemma {:induction false} SubmissionsExactly(streams: set<string>, ops: seq<Op>, id: string)
    ensures IsSubmitted(Run(Start(streams), ops), id, SubmissionOf(Start(streams), ops, id))
  {
    if ops != [] {
      var before := ops[..|ops| - 1];
      SubmissionsExactly(streams, before, id);
      StartIsValid(streams, before);
      SubmittedStep(Run(Start(streams), before), ops[|ops| - 1], id, SubmissionOf(Start(streams), before, id));
    }
  }

  lemma {:induction false} SubmissionStays(streams: set<string>, ops: seq<Op>, k: nat, id: string)
    requires k <= |ops| && SubmissionOf(Start(streams), ops[..k], id).Some?
    ensures SubmissionOf(Start(streams), ops, id) == SubmissionOf(Start(streams), ops[..k], id)
  {
    if k == |ops| {
      assert ops[..k] == ops;
    } else {
      var before := ops[..|ops| - 1];
      assert before[..k] == ops[..k];
      SubmissionStays(streams, before, k, id);
      SubmissionsExactly(streams, before, id);
    }
  }

  // A command for the adapter is completed if and only if its call was answered by resolving while it
  // was running.
  lemma ResolvedExactly(streams: set<string>, ops: seq<Op>, id: string)
    requires var s := Run(Start(streams), ops); id in s.store.commands && s.store.commands[id].kind !in LOCAL_COMMANDS
    ensures IsIn(Run(Start(streams), ops), id, Completed)
       <==> exists k :: 0 <= k < |ops| && ops[k].FinishOp? && ops[k].outcome.Resolves?
                        && Reaches(Run(Start(streams), ops[..k]), ops[k].i, id)
  {
    OutcomesExactly(streams, ops, id);
    forall k | 0 <= k < |ops|
      ensures var s := Run(Start(streams), ops[..k]);
              Completes(s, ops[k], id) <==> ops[k].FinishOp? && ops[k].outcome.Resolves? && Reaches(s, ops[k].i, id)
    {
      NeverLocal(streams, ops, k, id);
    }
  }

  lemma NeverLocal(streams: set<string>, ops: seq<Op>, k: nat, id: string)
    requires var s := Run(Start(streams), ops); id in s.store.commands && s.store.commands[id].kind !in LOCAL_COMMANDS
    requires k < |ops|
    ensures !IsLocalCommand(Run(Start(streams), ops[..k]), id)
  {
    SubmissionsExactly(streams, ops, id);
    SubmissionsExactly(streams, ops[..k], id);
    if SubmissionOf(Start(streams), ops[..k], id).Some? {
      SubmissionStays(streams, ops, k, id);
    }
  }

  // ----- Calls, leases and their events -----

  // The calls that the tasks of a run make, in order.
  ghost function CallsOf(start: System, ops: seq<Op>): seq<string> {
    if ops == [] then []
    else
      var before, op := ops[..|ops| - 1], ops[|ops| - 1];
      var s := Run(start, before);
      if op.CallOp? && At(s, op.i, Started) && !IsLocalCommand(s, s.lanes.tasks[op.i].command)
      then CallsOf(start, before) + [s.lanes.tasks[op.i].command] else CallsOf(start, before)
  }

  // The lease changes that a run's accepted submissions bring with them, and the events these leave.
  ghost function MutationsOf(start: System, ops: seq<Op>): seq<Leases.Op> {
    if ops == [] then []
    else
      var before, op := ops[..|ops| - 1], ops[|ops| - 1];
      if op.SubmitOp? && TakesNew(Run(start, before), op.sub, op.newId) && op.sub.leaseMutation.Some?
      then MutationsOf(start, before) + [Leases.Change(op.sub.leaseMutation.value, op.newId)] else MutationsOf(start, before)
  }

  ghost function ControllerTrail(start: System, ops: seq<Op>): seq<Event> {
    if ops == [] then []
    else
      var before, op := ops[..|ops| - 1], ops[|ops| - 1];
      if op.SubmitOp? && TakesNew(Run(start, before), op.sub, op.newId) && op.sub.leaseMutation.Some?
      then ControllerTrail(start, before) + [ControllerStateEvent(op.sub.streamId, op.sub.leaseMutation.value.action)]
      else ControllerTrail(start, before)
  }

  lemma CallsStep(s: System, op: Op)
    ensures Apply(s, op).calls
         == if op.CallOp? && At(s, op.i, Started) && !IsLocalCommand(s, s.lanes.tasks[op.i].command)
            then s.calls + [s.lanes.tasks[op.i].command] else s.calls
  {
  }

  // Over every run the adapter is called for exactly these commands.
  lemma {:induction false} CallsExactly(streams: set<string>, ops: seq<Op>)
    ensures Run(Start(streams), ops).calls == CallsOf(Start(streams), ops)
  {
    if ops != [] {
      CallsExactly(streams, ops[..|ops| - 1]);
      CallsStep(Run(Start(streams), ops[..|ops| - 1]), ops[|ops| - 1]);
    }
  }

  lemma LeasesStep(s: System, op: Op)
    ensures var s', changes := Apply(s, op), op.SubmitOp? && TakesNew(s, op.sub, op.newId) && op.sub.leaseMutation.Some?;
            && s'.store.streams == s.store.streams
            && s'.store.leases
            == (if changes then Leases.Apply(s.store.leases, Leases.Change(op.sub.leaseMutation.value, op.newId))
                else s.store.leases)
            && ControllerEvents(s'.store.log)
            == ControllerEvents(s.store.log)
             + if changes then [ControllerStateEvent(op.sub.streamId, op.sub.leaseMutation.value.action)] else []
  {
    match op
    case SubmitOp(sub, newId) =>
      if sub.commandId !in s.store.commands {
        SubmitExact(s, sub, newId);
        if TakesNew(s, sub, newId) {
          SubmitFate(s, sub, newId, sub.commandId);
        }
      }
    case ClaimOp(i) => if Enabled(s, op) { TransitionLeases(s.store, IdOf(s, i), {Accepted}, Dispatched); }
    case RunOp(i) => if Enabled(s, op) { TransitionLeases(s.store, IdOf(s, i), {Dispatched}, Running); }
    case CallOp(i) => if Enabled(s, op) { EndedControllers(s.store, IdOf(s, i), Resolves); }
    case FinishOp(i, outcome) => if Enabled(s, op) { EndedControllers(s.store, IdOf(s, i), outcome); }
    case FaultOp(i, _) => if Enabled(s, op) { EndedControllers(s.store, IdOf(s, i), Rejects); }
    case RecoverOp => MarkLeases(s.store, s.store.order);
    case HaltOp(marked) =>
      MarkLeases(s.store, if marked < |s.store.order| then s.store.order[..marked] else s.store.order);
    case _ =>
  }

  lemma EndedControllers(store: Store, id: string, outcome: Outcome)
    ensures Ended(store, id, outcome).leases == store.leases && Ended(store, id, outcome).streams == store.streams
    ensures ControllerEvents(Ended(store, id, outcome).log) == ControllerEvents(store.log)
  {
    match outcome
    case Resolves => TransitionLeases(store, id, {Running}, Completed);
    case Rejects => TransitionLeases(store, id, {Dispatched, Running}, Failed);
    case Uncertain => TransitionLeases(store, id, {Dispatched, Running}, Indeterminate);
  }

  lemma TransitionLeases(store: Store, id: string, from: set<State>, to: State)
    ensures var store' := Transition(store, id, from, to);
            && store'.leases == store.leases && store'.streams == store.streams && store'.order == store.order
            && ControllerEvents(store'.log) == ControllerEvents(store.log)
  {
    if CanMove(store, id, from) {
      OneMoreEvent(store.log, CommandStateEvent(store.commands[id].streamId, id, to), id);
    }
  }

  lemma {:induction false} MarkLeases(store: Store, ids: seq<string>)
    ensures MarkUncertain(store, ids).leases == store.leases && MarkUncertain(store, ids).streams == store.streams
    ensures MarkUncertain(store, ids).order == store.order
    ensures ControllerEvents(MarkUncertain(store, ids).log) == ControllerEvents(store.log)
  {
    if ids != [] {
      var n := |ids| - 1;
      MarkLeases(store, ids[..n]);
      TransitionLeases(MarkUncertain(store, ids[..n]), ids[n], {Dispatched, Running}, Indeterminate);
    }
  }

  // Over every run the leases are those that the accepted submissions asked for, one controller event
  // for each; no other operation touches them.
  lemma {:induction false} LeasesFollow(streams: set<string>, ops: seq<Op>)
    ensures var s, start := Run(Start(streams), ops), Start(streams);
            && s.store.leases == Leases.Run(map[], MutationsOf(start, ops))
            && ControllerEvents(s.store.log) == ControllerTrail(start, ops)
  {
    if ops != [] {
      var before := ops[..|ops| - 1];
      LeasesFollow(streams, before);
      LeasesStep(Run(Start(streams), before), ops[|ops| - 1]);
    }
  }

  // ----- Callbacks and recovery -----

  lemma CallbackSteps(s: System, i: nat)
    requires MayStart(s.lanes, i) && s.lanes.tasks[i].command in s.store.commands
    ensures var s', id := Dispatched'(s, i), s.lanes.tasks[i].command;
            if !s.store.commands[id].state.Accepted?
            then s'.store == s.store && s'.calls == s.calls && s'.lanes.tasks[i].progress.Settled?
            else
              var running := Transition(Transition(s.store, id, {Accepted}, Dispatched), id, {Dispatched}, Running);
              if IsLocalCommand(s, id)
              then && s'.store == Transition(running, id, {Running}, Completed) && s'.calls == s.calls
                   && s'.lanes.tasks[i].progress.Settled?
              else s'.store == running && s'.calls == s.calls + [id] && s'.lanes.tasks[i].progress.Called?
  {
  }

  lemma ThreeMoves(store: Store, id: string)
    requires id in store.commands && store.commands[id].state.Accepted?
    ensures var running := Transition(Transition(store, id, {Accepted}, Dispatched), id, {Dispatched}, Running);
            var completed, c := Transition(running, id, {Running}, Completed), store.commands[id];
            && id in running.commands && running.commands[id].state.Running?
            && id in completed.commands && completed.commands[id].state.Completed?
            && EventsOf(running.log, id) == EventsOf(store.log, id) + EventsFor(c.streamId, id, [Dispatched, Running])
            && EventsOf(completed.log, id)
            == EventsOf(store.log, id) + EventsFor(c.streamId, id, [Dispatched, Running, Completed])
  {
    var claimed := Transition(store, id, {Accepted}, Dispatched);
    var running := Transition(claimed, id, {Dispatched}, Running);
    var streamId := store.commands[id].streamId;
    OneMoreEvent(store.log, CommandStateEvent(streamId, id, Dispatched), id);
    OneMoreEvent(claimed.log, CommandStateEvent(streamId, id, Running), id);
    OneMoreEvent(running.log, CommandStateEvent(streamId, id, Completed), id);
    EventsOfThree(streamId, id, EventsOf(store.log, id));
  }

  // A callback up to its await: a command that is no longer accepted is left alone; a command of the bridge
  // itself is completed; any other is running and has been handed to the adapter.
  lemma CallbackExactly(s: System, i: nat)
    requires Valid(s) && MayStart(s.lanes, i)
    ensures var s', id := Dispatched'(s, i), s.lanes.tasks[i].command;
            && id in s.store.commands && id in s'.store.commands
            && var c := s.store.commands[id];
            if !c.state.Accepted? then s'.store == s.store && s'.calls == s.calls && s'.lanes.tasks[i].progress.Settled?
            else if IsLocalCommand(s, id)
            then && s'.store.commands[id].state.Completed? && s'.calls == s.calls && s'.lanes.tasks[i].progress.Settled?
                 && EventsOf(s'.store.log, id)
                 == EventsOf(s.store.log, id) + EventsFor(c.streamId, id, [Dispatched, Running, Completed])
            else && s'.store.commands[id].state.Running? && s'.calls == s.calls + [id] && s'.lanes.tasks[i].progress.Called?
                 && EventsOf(s'.store.log, id) == EventsOf(s.store.log, id) + EventsFor(c.streamId, id, [Dispatched, Running])
  {
    var id := s.lanes.tasks[i].command;
    assert TaskOk(s, i);
    CallbackSteps(s, i);
    if s.store.commands[id].state.Accepted? {
      ThreeMoves(s.store, id);
    }
  }

  lemma EventsOfThree(streamId: string, id: string, before: seq<Event>)
    ensures before + [CommandStateEvent(streamId, id, Dispatched)] + [CommandStateEvent(streamId, id, Running)]
         == before + EventsFor(streamId, id, [Dispatched, Running])
    ensures before + [CommandStateEvent(streamId, id, Dispatched)] + [CommandStateEvent(streamId, id, Running)]
            + [CommandStateEvent(streamId, id, Completed)]
         == before + EventsFor(streamId, id, [Dispatched, Running, Completed])
  {
    var two, three := [Dispatched, Running], [Dispatched, Running, Completed];
    assert three[..2] == two && two[..1] == [Dispatched] && [Dispatched][..0] == [];
    assert EventsFor(streamId, id, [Dispatched]) == [CommandStateEvent(streamId, id, Dispatched)];
  }

  // The accepted commands among `ids`, in order.
  function AcceptedOf(store: Store, ids: seq<string>): seq<string> {
    if ids == [] then []
    else
      var last, rest := ids[|ids| - 1], AcceptedOf(store, ids[..|ids| - 1]);
      if last in store.commands && store.commands[last].state.Accepted? then rest + [last] else rest
  }

  // The tasks stay, and behind them wait one for each of the commands, in order.
  ghost predicate WaitBehind(lanes: Lanes, lanes': Lanes, commands: seq<string>) {
    && |lanes'.tasks| == |lanes.tasks| + |commands|
    && (forall k :: 0 <= k < |lanes.tasks| ==> lanes'.tasks[k] == lanes.tasks[k])
    && forall k :: |lanes.tasks| <= k < |lanes'.tasks| ==>
         lanes'.tasks[k].command == commands[k - |lanes.tasks|] && lanes'.tasks[k].progress.Waiting?
  }

  lemma {:induction false} RequeueInOrder(lanes: Lanes, store: Store, ids: seq<string>)
    ensures WaitBehind(lanes, Requeued(lanes, store, ids), AcceptedOf(store, ids))
  {
    if ids != [] {
      RequeueInOrder(lanes, store, ids[..|ids| - 1]);
    }
  }

  // A recovery puts the accepted commands, each once and in the order of their creation, behind what is
  // in their lanes, and calls nobody.
  lemma RecoveryInOrder(s: System)
    requires Valid(s)
    ensures var s', accepted := Recovered(s), AcceptedOf(s.store, s.store.order);
            && s'.calls == s.calls && s'.store.order == s.store.order
            && WaitBehind(s.lanes, s'.lanes, accepted)
  {
    MarkedKeepsAccepted(s.store, s.store.order);
    RequeueInOrder(s.lanes, Recovered(s).store, s.store.order);
  }

  lemma MarkedKeepsAccepted(store: Store, ids: seq<string>)
    requires TablesOk(store)
    ensures var store' := MarkUncertain(store, ids);
            AcceptedOf(store', store.order) == AcceptedOf(store, store.order) && store'.order == store.order
  {
    MarkExact(store, ids);
    AcceptedAreTheSame(store, MarkUncertain(store, ids), store.order);
  }

  lemma {:induction false} AcceptedAreTheSame(store: Store, store': Store, ids: seq<string>)
    requires store'.commands.Keys == store.commands.Keys
    requires forall id :: id in store.commands ==> (store'.commands[id].state.Accepted? <==> store.commands[id].state.Accepted?)
    ensures AcceptedOf(store', ids) == AcceptedOf(store, ids)
  {
    if ids != [] {
      AcceptedAreTheSame(store, store', ids[..|ids| - 1]);
    }
  }
}
