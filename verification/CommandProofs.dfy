// What the command tables, the lanes and the adapter's call log keep over every run.
module CommandProofs {
  import opened Wrappers
  import Leases
  import opened Lanes
  import opened Commands

  // ----- The invariant -----

  // The state that the journal's command.state events say a command is in.
  function Replay(log: seq<Event>, id: string): Option<State> {
    if log == [] then None
    else
      var last := log[|log| - 1];
      if last.CommandStateEvent? && last.commandId == id then Some(last.state) else Replay(log[..|log| - 1], id)
  }

  ghost predicate Distinct(ids: seq<string>) {
    forall i, j :: 0 <= i < j < |ids| ==> ids[i] != ids[j]
  }

  ghost predicate TablesOk(store: Store) {
    && Leases.OneActive(store.leases)
    && Distinct(store.order)
    && (forall id :: id in store.commands <==> id in store.order)
    && (forall id :: id in store.commands ==>
          store.commands[id].dispatchCount == if store.commands[id].state.Accepted? then 0 else 1)
    && (forall id :: Replay(store.log, id) == if id in store.commands then Some(store.commands[id].state) else None)
  }

  // How a command's state, its task's progress and the adapter's call log fit together.
  ghost predicate TaskOk(s: System, i: nat)
    requires i < |s.lanes.tasks|
  {
    var task := s.lanes.tasks[i];
    && task.command in s.store.commands
    && task.key == s.store.commands[task.command].scope
    && match task.progress
       case Claimed => s.store.commands[task.command].state in {Dispatched, Indeterminate} && task.command !in s.calls
       case Started => s.store.commands[task.command].state in {Running, Indeterminate} && task.command !in s.calls
       case Called => s.store.commands[task.command].state in {Running, Indeterminate} && task.command in s.calls
       case _ => true
  }

  ghost predicate CommandOk(s: System, id: string)
    requires id in s.store.commands
  {
    var c := s.store.commands[id];
    && (c.state in {Accepted, Dispatched} || c.kind in LOCAL_COMMANDS ==> id !in s.calls)
    && (c.state.Completed? && c.kind !in LOCAL_COMMANDS ==> id in s.calls)
  }

  ghost predicate Valid(s: System) {
    && TablesOk(s.store)
    && LanesOk(s.lanes)
    && Distinct(s.calls)
    && (forall id :: id in s.calls ==> id in s.store.commands)
    && (forall id :: id in s.store.commands ==> CommandOk(s, id))
    && (forall i :: 0 <= i < |s.lanes.tasks| ==> TaskOk(s, i))
  }

  predicate Active(p: Progress) {
    p.Claimed? || p.Started? || p.Called?
  }

  // Lanes serialise a command against its own duplicates: its tasks share a key.
  lemma OnlyActiveTask(s: System, i: nat, j: nat)
    requires Valid(s) && i < |s.lanes.tasks| && j < |s.lanes.tasks| && i != j && IdOf(s, i) == IdOf(s, j)
    requires MayStart(s.lanes, i) || Active(s.lanes.tasks[i].progress)
    ensures !Active(s.lanes.tasks[j].progress)
  {
    assert TaskOk(s, i) && TaskOk(s, j);
    if MayStart(s.lanes, i) {
      StartedIsHead(s.lanes, i);
    }
    if i < j {
      LaneIsFifo(s.lanes, i, j);
    }
  }

  // ----- Transitions of one command -----

  predicate LegalMove(from: set<State>, to: State) {
    (from == {Accepted} && to.Dispatched?) || (Accepted !in from && !to.Accepted? && !to.Dispatched?)
  }

  lemma TransitionKeepsTables(store: Store, id: string, from: set<State>, to: State)
    requires TablesOk(store) && LegalMove(from, to)
    ensures TablesOk(Transition(store, id, from, to))
  {
    if CanMove(store, id, from) {
      var store' := Transition(store, id, from, to);
      assert store'.log[..|store.log|] == store.log;
      forall other ensures Replay(store'.log, other)
                        == if other in store'.commands then Some(store'.commands[other].state) else None {
        assert other != id ==> Replay(store'.log, other) == Replay(store.log, other);
      }
    }
  }

  // A step of task `i` that moves only its own command.
  ghost predicate OwnStep(s: System, s': System, i: nat)
    requires i < |s.lanes.tasks|
  {
    var id := IdOf(s, i);
    && s'.store.commands.Keys == s.store.commands.Keys
    && (forall other :: other in s.store.commands && other != id ==> s'.store.commands[other] == s.store.commands[other])
    && (id in s.store.commands ==> s'.store.commands[id].scope == s.store.commands[id].scope)
    && (s'.calls == s.calls || (s'.calls == s.calls + [id] && id !in s.calls))
    && (exists p: Progress :: !p.Waiting? && s'.lanes == Moved(s.lanes, i, p))
  }

  lemma OwnStepKeeps(s: System, s': System, i: nat)
    requires Valid(s) && i < |s.lanes.tasks| && OwnStep(s, s', i) && TablesOk(s'.store)
    requires MayStart(s.lanes, i) || Active(s.lanes.tasks[i].progress)
    requires TaskOk(s', i) && CommandOk(s', IdOf(s, i))
    ensures Valid(s')
  {
    var id := IdOf(s, i);
    var p: Progress :| !p.Waiting? && s'.lanes == Moved(s.lanes, i, p);
    assert TaskOk(s, i);
    MoveKeepsLanes(s.lanes, i, p);
    forall other | other in s'.store.commands ensures CommandOk(s', other) {
      assert CommandOk(s, other);
    }
    forall j | 0 <= j < |s'.lanes.tasks| && j != i ensures TaskOk(s', j) {
      OtherTaskKept(s, s', i, j);
    }
  }

  lemma OtherTaskKept(s: System, s': System, i: nat, j: nat)
    requires Valid(s) && i < |s.lanes.tasks| && j < |s.lanes.tasks| && i != j && OwnStep(s, s', i)
    requires MayStart(s.lanes, i) || Active(s.lanes.tasks[i].progress)
    ensures j < |s'.lanes.tasks| && TaskOk(s', j)
  {
    assert TaskOk(s, j);
    if IdOf(s, j) == IdOf(s, i) {
      OnlyActiveTask(s, i, j);
    }
  }

  lemma ClaimKeeps(s: System, i: nat)
    requires Valid(s) && MayStart(s.lanes, i)
    ensures Valid(ClaimStep(s, i))
  {
    var id, s' := IdOf(s, i), ClaimStep(s, i);
    assert TaskOk(s, i) && CommandOk(s, id);
    TransitionKeepsTables(s.store, id, {Accepted}, Dispatched);
    OwnStepKeeps(s, s', i);
  }

  lemma RunKeeps(s: System, i: nat)
    requires Valid(s) && At(s, i, Claimed)
    ensures Valid(RunStep(s, i))
  {
    var id, s' := IdOf(s, i), RunStep(s, i);
    assert TaskOk(s, i) && CommandOk(s, id);
    TransitionKeepsTables(s.store, id, {Dispatched}, Running);
    OwnStepKeeps(s, s', i);
  }

  lemma EndedKeepsTables(store: Store, id: string, outcome: Outcome)
    requires TablesOk(store)
    ensures TablesOk(Ended(store, id, outcome))
  {
    match outcome
    case Resolves => TransitionKeepsTables(store, id, {Running}, Completed);
    case Rejects => TransitionKeepsTables(store, id, {Dispatched, Running}, Failed);
    case Uncertain => TransitionKeepsTables(store, id, {Dispatched, Running}, Indeterminate);
  }

  lemma FinishIsOwnStep(s: System, i: nat, outcome: Outcome)
    requires Valid(s) && i < |s.lanes.tasks| && Active(s.lanes.tasks[i].progress)
    requires outcome.Resolves? ==> At(s, i, Called) || IsLocal(s, i)
    ensures OwnStep(s, FinishedStep(s, i, outcome), i)
    ensures TaskOk(FinishedStep(s, i, outcome), i) && CommandOk(FinishedStep(s, i, outcome), IdOf(s, i))
  {
    assert TaskOk(s, i) && CommandOk(s, IdOf(s, i));
    assert FinishedStep(s, i, outcome).lanes == Moved(s.lanes, i, Settled);
  }

  lemma FinishKeeps(s: System, i: nat, outcome: Outcome)
    requires Valid(s) && i < |s.lanes.tasks| && Active(s.lanes.tasks[i].progress)
    requires outcome.Resolves? ==> At(s, i, Called) || IsLocal(s, i)
    ensures Valid(FinishedStep(s, i, outcome))
  {
    EndedKeepsTables(s.store, IdOf(s, i), outcome);
    FinishIsOwnStep(s, i, outcome);
    OwnStepKeeps(s, FinishedStep(s, i, outcome), i);
  }

  lemma CallKeeps(s: System, i: nat)
    requires Valid(s) && At(s, i, Started)
    ensures Valid(CallStep(s, i))
  {
    if IsLocal(s, i) {
      FinishKeeps(s, i, Resolves);
    } else {
      assert TaskOk(s, i) && CommandOk(s, IdOf(s, i));
      OwnStepKeeps(s, CallStep(s, i), i);
    }
  }

  lemma FaultKeeps(s: System, i: nat, handled: bool)
    requires Valid(s) && (MayStart(s.lanes, i) || (i < |s.lanes.tasks| && Active(s.lanes.tasks[i].progress)))
    ensures Valid(FaultStep(s, i, handled))
  {
    if s.lanes.tasks[i].progress.Waiting? || !handled {
      assert TaskOk(s, i) && CommandOk(s, IdOf(s, i));
      OwnStepKeeps(s, FaultStep(s, i, handled), i);
    } else {
      FinishKeeps(s, i, Rejects);
    }
  }

  // ----- Submission -----

  lemma AcceptKeepsTables(store: Store, sub: Submission)
    requires TablesOk(store) && sub.commandId !in store.commands
    ensures TablesOk(Accept(store, sub))
  {
    var store' := Accept(store, sub);
    var log1 := store.log + [CommandStateEvent(sub.streamId, sub.commandId, Accepted)];
    assert log1[..|store.log|] == store.log;
    if sub.leaseMutation.Some? {
      assert store'.log[..|log1|] == log1;
    }
    forall id ensures Replay(store'.log, id) == if id == sub.commandId then Some(Accepted) else Replay(store.log, id) {
      assert Replay(store'.log, id) == Replay(log1, id);
    }
  }

  lemma SubmitKeeps(s: System, sub: Submission, newId: string)
    requires Valid(s) && Submitted(s, sub, newId).Ok?
    ensures Valid(Submitted(s, sub, newId).value.0)
  {
    var s' := Submitted(s, sub, newId).value.0;
    if sub.commandId !in s.store.commands {
      if sub.leaseMutation.Some? {
        Leases.MutateKeepsOneActive(s.store.leases, sub.leaseMutation.value, newId);
      }
      AcceptKeepsTables(s.store.(leases := s'.store.leases), sub);
      EnqueueKeepsLanes(s.lanes, sub.scope, sub.commandId);
      forall id | id in s'.store.commands ensures CommandOk(s', id) {
        assert id != sub.commandId ==> CommandOk(s, id);
      }
      forall j | 0 <= j < |s'.lanes.tasks| ensures TaskOk(s', j) {
        assert j < |s.lanes.tasks| ==> TaskOk(s, j);
      }
    }
  }

  // ----- Recovery -----

  function Marked(c: Command): Command {
    if c.state in {Dispatched, Running} then c.(state := Indeterminate) else c
  }

  // Marking touches only commands in flight, and makes each of them indeterminate.
  ghost predicate MarkedIn(store: Store, store': Store, ids: seq<string>) {
    && store'.order == store.order && store'.leases == store.leases
    && store'.commands.Keys == store.commands.Keys
    && forall id :: id in store.commands ==>
         store'.commands[id] == if id in ids then Marked(store.commands[id]) else store.commands[id]
  }

  lemma MarkOne(store: Store, mid: Store, ids: seq<string>, id: string)
    requires MarkedIn(store, mid, ids)
    ensures MarkedIn(store, Transition(mid, id, {Dispatched, Running}, Indeterminate), ids + [id])
  {
    assert forall other :: other in ids + [id] <==> other in ids || other == id;
  }

  lemma {:induction false} MarkExact(store: Store, ids: seq<string>)
    requires TablesOk(store)
    ensures TablesOk(MarkUncertain(store, ids)) && MarkedIn(store, MarkUncertain(store, ids), ids)
  {
    if ids != [] {
      var n := |ids| - 1;
      MarkExact(store, ids[..n]);
      var mid := MarkUncertain(store, ids[..n]);
      TransitionKeepsTables(mid, ids[n], {Dispatched, Running}, Indeterminate);
      MarkOne(store, mid, ids[..n], ids[n]);
      assert ids[..n] + [ids[n]] == ids;
    }
  }

  // Requeueing appends one waiting task for each accepted command, in its own lane.
  ghost predicate OnlyNewTasks(lanes: Lanes, lanes': Lanes, store: Store) {
    && |lanes.tasks| <= |lanes'.tasks|
    && (forall i :: 0 <= i < |lanes.tasks| ==> lanes'.tasks[i] == lanes.tasks[i])
    && (forall i :: |lanes.tasks| <= i < |lanes'.tasks| ==>
          && lanes'.tasks[i].progress.Waiting? && lanes'.tasks[i].command in store.commands
          && lanes'.tasks[i].key == store.commands[lanes'.tasks[i].command].scope)
  }

  ghost predicate HasWaitingTask(lanes: Lanes, id: string) {
    exists i :: 0 <= i < |lanes.tasks| && lanes.tasks[i].command == id && lanes.tasks[i].progress.Waiting?
  }

  lemma {:induction false} RequeueExact(lanes: Lanes, store: Store, ids: seq<string>)
    requires LanesOk(lanes)
    ensures var lanes' := Requeued(lanes, store, ids);
            && LanesOk(lanes') && OnlyNewTasks(lanes, lanes', store)
            && (forall id :: id in ids && CanMove(store, id, {Accepted}) ==> HasWaitingTask(lanes', id))
  {
    if ids != [] {
      var n := |ids| - 1;
      RequeueExact(lanes, store, ids[..n]);
      var before, after := Requeued(lanes, store, ids[..n]), Requeued(lanes, store, ids);
      if CanMove(store, ids[n], {Accepted}) {
        EnqueueKeepsLanes(before, store.commands[ids[n]].scope, ids[n]);
        assert after.tasks[|before.tasks|].command == ids[n];
        forall id | HasWaitingTask(before, id) ensures HasWaitingTask(after, id) {
          var i :| 0 <= i < |before.tasks| && before.tasks[i].command == id && before.tasks[i].progress.Waiting?;
          assert after.tasks[i] == before.tasks[i];
        }
      }
      assert forall id :: id in ids <==> id in ids[..n] || id == ids[n];
    }
  }

  lemma RecoverKeeps(s: System)
    requires Valid(s)
    ensures Valid(Recovered(s))
  {
    var s' := Recovered(s);
    MarkExact(s.store, s.store.order);
    RequeueExact(s.lanes, s'.store, s'.store.order);
    forall id | id in s'.store.commands ensures CommandOk(s', id) {
      assert CommandOk(s, id);
    }
    forall i | 0 <= i < |s'.lanes.tasks| ensures TaskOk(s', i) {
      if i < |s.lanes.tasks| {
        assert TaskOk(s, i);
      }
    }
  }

  // After a recovery every accepted command waits in its own lane, and none is in flight.
  lemma RecoveryRequeuesAll(s: System)
    requires Valid(s)
    ensures var s' := Recovered(s);
            && s'.store.commands.Keys == s.store.commands.Keys
            && (forall id :: id in s'.store.commands ==>
                  && s'.store.commands[id].state !in {Dispatched, Running}
                  && (s'.store.commands[id].state.Accepted? ==> HasWaitingTask(s'.lanes, id)))
            && (forall id :: id in s.store.commands && s.store.commands[id].state in {Dispatched, Running}
                  ==> s'.store.commands[id].state.Indeterminate?)
  {
    MarkExact(s.store, s.store.order);
    RequeueExact(s.lanes, Recovered(s).store, Recovered(s).store.order);
  }

  // ----- Every run -----

  lemma ApplyKeeps(s: System, op: Op)
    requires Valid(s)
    ensures Valid(Apply(s, op))
  {
    if Enabled(s, op) {
      match op
      case SubmitOp(sub, newId) => SubmitKeeps(s, sub, newId);
      case ClaimOp(i) => ClaimKeeps(s, i);
      case RunOp(i) => RunKeeps(s, i);
      case CallOp(i) => CallKeeps(s, i);
      case FinishOp(i, outcome) => FinishKeeps(s, i, outcome);
      case FaultOp(i, handled) => FaultKeeps(s, i, handled);
      case FinallyOp(i) => FinallyKeeps(s, i);
      case RecoverOp => RecoverKeeps(s);
      case HaltOp(marked) => HaltKeeps(s, marked);
      case CrashOp => CrashKeeps(s);
    }
  }

  lemma FinallyKeeps(s: System, i: nat)
    requires Valid(s) && At(s, i, Settled)
    ensures Valid(s.(lanes := Forgotten(s.lanes, i)))
  {
    var s' := s.(lanes := Forgotten(s.lanes, i));
    ForgetKeepsLanes(s.lanes, i);
    forall id | id in s'.store.commands ensures CommandOk(s', id) {
      assert CommandOk(s, id);
    }
    forall j | 0 <= j < |s'.lanes.tasks| ensures TaskOk(s', j) {
      assert TaskOk(s, j);
    }
  }

  lemma CrashKeeps(s: System)
    requires Valid(s)
    ensures Valid(Crashed(s))
  {
    forall id | id in s.store.commands ensures CommandOk(Crashed(s), id) {
      assert CommandOk(s, id);
    }
  }

  lemma HaltKeeps(s: System, marked: nat)
    requires Valid(s)
    ensures Valid(Halted(s, marked))
  {
    var ids := if marked < |s.store.order| then s.store.order[..marked] else s.store.order;
    var s' := Halted(s, marked);
    MarkExact(s.store, ids);
    forall id | id in s'.store.commands ensures CommandOk(s', id) {
      assert CommandOk(s, id);
    }
  }

  lemma {:induction false} RunIsValid(s: System, ops: seq<Op>)
    requires Valid(s)
    ensures Valid(Run(s, ops))
  {
    if ops != [] {
      RunIsValid(s, ops[..|ops| - 1]);
      ApplyKeeps(Run(s, ops[..|ops| - 1]), ops[|ops| - 1]);
    }
  }

  // Over every run of submissions, duplicates, recoveries, store faults and crashes: no command is
  // handed to the adapter twice, the dispatch count tells claimed from accepted, the journal's
  // events replay to the table, and a non-local command that is reported completed was dispatched.
  lemma DispatchedAtMostOnce(streams: set<string>, ops: seq<Op>)
    ensures var s := Run(Start(streams), ops);
            && Distinct(s.calls)
            && (forall id :: id in s.store.commands ==>
                  var c := s.store.commands[id];
                  && c.dispatchCount == (if c.state.Accepted? then 0 else 1)
                  && Replay(s.store.log, id) == Some(c.state)
                  && (id in s.calls ==> c.dispatchCount == 1 && c.kind !in LOCAL_COMMANDS)
                  && (c.state.Completed? && c.kind !in LOCAL_COMMANDS ==> id in s.calls))
  {
    assert LanesOk(NO_LANES);
    RunIsValid(Start(streams), ops);
    var s := Run(Start(streams), ops);
    forall id | id in s.store.commands ensures CommandOk(s, id) {
    }
  }

  // ----- Lanes over every run -----

  lemma RunKeepsLanes(streams: set<string>, ops: seq<Op>)
    ensures LanesOk(Run(Start(streams), ops).lanes)
  {
    assert LanesOk(NO_LANES);
    RunIsValid(Start(streams), ops);
  }

  // Over every run, tasks of one scope run in the order they were enqueued and never overlap: when one
  // has started, every earlier one has settled.
  lemma LanesAreFifo(streams: set<string>, ops: seq<Op>, i: nat, j: nat)
    requires var tasks := Run(Start(streams), ops).lanes.tasks; i < j < |tasks| && tasks[i].key == tasks[j].key
    ensures var tasks := Run(Start(streams), ops).lanes.tasks;
            !tasks[j].progress.Waiting? ==> tasks[i].progress.Settled?
  {
    RunKeepsLanes(streams, ops);
    LaneIsFifo(Run(Start(streams), ops).lanes, i, j);
  }

  // Over every run, a scope with an unsettled task is not stuck: its oldest one has started or may start.
  lemma LaneIsNeverStuck(streams: set<string>, ops: seq<Op>, j: nat) returns (i: nat)
    requires j < |Run(Start(streams), ops).lanes.tasks| && !Run(Start(streams), ops).lanes.tasks[j].progress.Settled?
    ensures var lanes := Run(Start(streams), ops).lanes;
            && i <= j < |lanes.tasks| && lanes.tasks[i].key == lanes.tasks[j].key && !lanes.tasks[i].progress.Settled?
            && HeadOfLane(lanes, i) && (Active(lanes.tasks[i].progress) || MayStart(lanes, i))
  {
    var lanes := Run(Start(streams), ops).lanes;
    RunKeepsLanes(streams, ops);
    i := OldestOf(lanes, j);
    OldestCanProceed(lanes, i);
  }

  lemma OldestOf(lanes: Lanes, j: nat) returns (i: nat)
    requires j < |lanes.tasks| && !lanes.tasks[j].progress.Settled?
    ensures i <= j && lanes.tasks[i].key == lanes.tasks[j].key && !lanes.tasks[i].progress.Settled? && HeadOfLane(lanes, i)
    decreases j
  {
    i := j;
    if !HeadOfLane(lanes, j) {
      var k :| 0 <= k < j && lanes.tasks[k].key == lanes.tasks[j].key && !lanes.tasks[k].progress.Settled?;
      i := OldestOf(lanes, k);
    }
  }

  // ----- Settled for good -----

  lemma TransitionRespectsTerminal(store: Store, moved: string, from: set<State>, to: State, id: string)
    requires id in store.commands && forall state :: state in from ==> !Terminal(state)
    ensures id in Transition(store, moved, from, to).commands
    ensures Terminal(store.commands[id].state) ==> Transition(store, moved, from, to).commands[id] == store.commands[id]
  {
  }

  lemma EndedRespectsTerminal(store: Store, moved: string, outcome: Outcome, id: string)
    requires id in store.commands
    ensures id in Ended(store, moved, outcome).commands
    ensures Terminal(store.commands[id].state) ==> Ended(store, moved, outcome).commands[id] == store.commands[id]
  {
    TransitionRespectsTerminal(store, moved, {Running}, Completed, id);
    TransitionRespectsTerminal(store, moved, {Dispatched, Running}, Failed, id);
    TransitionRespectsTerminal(store, moved, {Dispatched, Running}, Indeterminate, id);
  }

  lemma MarksRespectTerminal(store: Store, ids: seq<string>, id: string)
    requires TablesOk(store) && id in store.commands
    ensures id in MarkUncertain(store, ids).commands
    ensures Terminal(store.commands[id].state) ==> MarkUncertain(store, ids).commands[id] == store.commands[id]
  {
    MarkExact(store, ids);
  }

  lemma StepRespectsTerminal(s: System, op: Op, id: string)
    requires Valid(s) && id in s.store.commands
    ensures id in Apply(s, op).store.commands
    ensures Terminal(s.store.commands[id].state) ==> Apply(s, op).store.commands[id] == s.store.commands[id]
  {
    if Enabled(s, op) {
      match op
      case ClaimOp(i) => TransitionRespectsTerminal(s.store, IdOf(s, i), {Accepted}, Dispatched, id);
      case RunOp(i) => TransitionRespectsTerminal(s.store, IdOf(s, i), {Dispatched}, Running, id);
      case CallOp(i) => EndedRespectsTerminal(s.store, IdOf(s, i), Resolves, id);
      case FinishOp(i, outcome) => EndedRespectsTerminal(s.store, IdOf(s, i), outcome, id);
      case FaultOp(i, _) => EndedRespectsTerminal(s.store, IdOf(s, i), Rejects, id);
      case RecoverOp => MarksRespectTerminal(s.store, s.store.order, id);
      case HaltOp(marked) =>
        MarksRespectTerminal(s.store, if marked < |s.store.order| then s.store.order[..marked] else s.store.order, id);
      case _ =>
    }
  }

  // Completed, failed and indeterminate never change again.
  lemma {:induction false} TerminalForever(s: System, ops: seq<Op>, id: string)
    requires Valid(s) && id in s.store.commands && Terminal(s.store.commands[id].state)
    ensures id in Run(s, ops).store.commands && Run(s, ops).store.commands[id] == s.store.commands[id]
  {
    if ops != [] {
      TerminalForever(s, ops[..|ops| - 1], id);
      RunIsValid(s, ops[..|ops| - 1]);
      StepRespectsTerminal(Run(s, ops[..|ops| - 1]), ops[|ops| - 1], id);
    }
  }

  // A retry of a known command, or a refused one, changes no command, lease, lane or event.
  lemma RetryChangesNothing(s: System, sub: Submission, newId: string)
    requires sub.commandId in s.store.commands
    ensures Apply(s, SubmitOp(sub, newId)) == s
    ensures Submitted(s, sub, newId)
         == if s.store.commands[sub.commandId].hash == sub.hash
            then Ok((s, Receipt(s.store.commands[sub.commandId].state, true))) else Err(IdempotencyConflict)
  {
  }

  // ----- Nothing is left behind -----

  ghost predicate HasActiveTask(lanes: Lanes, id: string) {
    exists i :: 0 <= i < |lanes.tasks| && lanes.tasks[i].command == id && Active(lanes.tasks[i].progress)
  }

  // Every command that is not settled has a task that will settle it.
  ghost predicate Covered(s: System) {
    forall id :: id in s.store.commands && !Terminal(s.store.commands[id].state) ==>
      if s.store.commands[id].state.Accepted? then HasWaitingTask(s.lanes, id) else HasActiveTask(s.lanes, id)
  }

  lemma RecoveryCovers(s: System)
    requires Valid(s)
    ensures Covered(Recovered(s))
  {
    RecoveryRequeuesAll(s);
  }

  ghost predicate CoveredAt(s: System, id: string)
    requires id in s.store.commands
  {
    !Terminal(s.store.commands[id].state) ==>
      if s.store.commands[id].state.Accepted? then HasWaitingTask(s.lanes, id) else HasActiveTask(s.lanes, id)
  }

  // A step of task `i` leaves the other commands' tasks in place.
  lemma OthersStayCovered(s: System, s': System, i: nat, id: string)
    requires Covered(s) && i < |s.lanes.tasks| && OwnStep(s, s', i)
    requires id in s.store.commands && id != IdOf(s, i)
    ensures CoveredAt(s', id)
  {
    forall j | 0 <= j < |s.lanes.tasks| && s.lanes.tasks[j].command == id ensures s'.lanes.tasks[j] == s.lanes.tasks[j] {
    }
  }

  lemma OwnStepCovers(s: System, s': System, i: nat)
    requires Covered(s) && i < |s.lanes.tasks| && OwnStep(s, s', i)
    requires IdOf(s, i) in s.store.commands && CoveredAt(s', IdOf(s, i))
    ensures Covered(s')
  {
    forall id | id in s'.store.commands ensures CoveredAt(s', id) {
      if id != IdOf(s, i) {
        OthersStayCovered(s, s', i, id);
      }
    }
  }

  lemma ClaimCovers(s: System, i: nat)
    requires Valid(s) && Covered(s) && MayStart(s.lanes, i)
    ensures Covered(ClaimStep(s, i))
  {
    var id, s' := IdOf(s, i), ClaimStep(s, i);
    assert TaskOk(s, i);
    assert s'.lanes.tasks[i].command == id;
    if !Terminal(s.store.commands[id].state) && !s.store.commands[id].state.Accepted? {
      var j :| 0 <= j < |s.lanes.tasks| && s.lanes.tasks[j].command == id && Active(s.lanes.tasks[j].progress);
      assert s'.lanes.tasks[j] == s.lanes.tasks[j];
    }
    OwnStepCovers(s, s', i);
  }

  lemma RunCovers(s: System, i: nat)
    requires Valid(s) && Covered(s) && At(s, i, Claimed)
    ensures Covered(RunStep(s, i))
  {
    var s' := RunStep(s, i);
    assert TaskOk(s, i);
    assert s'.lanes.tasks[i].command == IdOf(s, i);
    OwnStepCovers(s, s', i);
  }

  lemma FinishCovers(s: System, i: nat, outcome: Outcome)
    requires Valid(s) && Covered(s) && (At(s, i, Called) || At(s, i, Started))
    ensures Covered(FinishedStep(s, i, outcome))
  {
    var s' := FinishedStep(s, i, outcome);
    assert TaskOk(s, i);
    assert s'.lanes == Moved(s.lanes, i, Settled);
    OwnStepCovers(s, s', i);
  }

  lemma CallCovers(s: System, i: nat)
    requires Valid(s) && Covered(s) && At(s, i, Started)
    ensures Covered(CallStep(s, i))
  {
    if IsLocal(s, i) {
      FinishCovers(s, i, Resolves);
    } else {
      var s' := CallStep(s, i);
      assert TaskOk(s, i);
      assert s'.lanes.tasks[i].command == IdOf(s, i);
      OwnStepCovers(s, s', i);
    }
  }

  lemma SubmitCovers(s: System, sub: Submission, newId: string)
    requires Valid(s) && Covered(s) && Submitted(s, sub, newId).Ok?
    ensures Covered(Submitted(s, sub, newId).value.0)
  {
    var s' := Submitted(s, sub, newId).value.0;
    if sub.commandId !in s.store.commands {
      assert s'.lanes.tasks[|s.lanes.tasks|].command == sub.commandId;
      forall id | id in s'.store.commands ensures CoveredAt(s', id) {
        if id != sub.commandId {
          assert CoveredAt(s, id);
          forall j | 0 <= j < |s.lanes.tasks| ensures s'.lanes.tasks[j] == s.lanes.tasks[j] {
          }
        }
      }
    }
  }

  // A step with no store fault and no crash.
  predicate Smooth(op: Op) {
    !op.FaultOp? && !op.HaltOp? && !op.CrashOp?
  }

  lemma ApplyCovers(s: System, op: Op)
    requires Valid(s) && Covered(s) && Smooth(op)
    ensures Covered(Apply(s, op))
  {
    if Enabled(s, op) {
      match op
      case SubmitOp(sub, newId) => SubmitCovers(s, sub, newId);
      case ClaimOp(i) => ClaimCovers(s, i);
      case RunOp(i) => RunCovers(s, i);
      case CallOp(i) => CallCovers(s, i);
      case FinishOp(i, outcome) => FinishCovers(s, i, outcome);
      case FinallyOp(i) =>
        forall id | id in s.store.commands ensures CoveredAt(Apply(s, op), id) {
          assert CoveredAt(s, id);
        }
      case RecoverOp => RecoveryCovers(s);
    }
  }

  lemma {:induction false} RunCovered(s: System, ops: seq<Op>)
    requires Valid(s) && Covered(s) && forall op :: op in ops ==> Smooth(op)
    ensures Valid(Run(s, ops)) && Covered(Run(s, ops))
  {
    RunIsValid(s, ops);
    if ops != [] {
      var n := |ops| - 1;
      RunCovered(s, ops[..n]);
      assert ops[n] in ops;
      ApplyCovers(Run(s, ops[..n]), ops[n]);
    }
  }

  ghost predicate AllSettled(tasks: seq<Task>) {
    forall i :: 0 <= i < |tasks| ==> tasks[i].progress.Settled?
  }

  lemma NoTaskNoDebt(s: System)
    requires Covered(s) && AllSettled(s.lanes.tasks)
    ensures forall id :: id in s.store.commands ==> Terminal(s.store.commands[id].state)
  {
    forall id | id in s.store.commands ensures Terminal(s.store.commands[id].state) {
      assert CoveredAt(s, id);
      assert !HasWaitingTask(s.lanes, id) && !HasActiveTask(s.lanes, id);
    }
  }

  // From any reachable state, a recovery followed by a run without store faults or crashes leaves
  // no command accepted, dispatched or running once every lane has drained.
  lemma DrainedMeansSettled(streams: set<string>, before: seq<Op>, after: seq<Op>)
    requires forall op :: op in after ==> Smooth(op)
    requires AllSettled(Run(Recovered(Run(Start(streams), before)), after).lanes.tasks)
    ensures var s := Run(Recovered(Run(Start(streams), before)), after);
            forall id :: id in s.store.commands ==> Terminal(s.store.commands[id].state)
  {
    var s0 := Run(Start(streams), before);
    assert LanesOk(NO_LANES);
    RunIsValid(Start(streams), before);
    RecoverKeeps(s0);
    RecoveryCovers(s0);
    RunCovered(Recovered(s0), after);
    var s := Run(Recovered(s0), after);
    assert AllSettled(s.lanes.tasks);
    NoTaskNoDebt(s);
  }

  // ----- Draining -----

  function Work(tasks: seq<Task>): nat {
    if tasks == [] then 0
    else
      var n := |tasks| - 1;
      Work(tasks[..n]) + (match tasks[n].progress case Waiting => 2 case Settled => 0 case _ => 1)
  }

  lemma {:induction false} WorkDrops(tasks: seq<Task>, i: nat, to: Progress)
    requires i < |tasks|
    requires (tasks[i].progress.Waiting? && !to.Waiting?) || (!tasks[i].progress.Settled? && to.Settled?)
    ensures Work(tasks[i := tasks[i].(progress := to)]) < Work(tasks)
  {
    var n := |tasks| - 1;
    var tasks' := tasks[i := tasks[i].(progress := to)];
    if i < n {
      WorkDrops(tasks[..n], i, to);
      assert tasks'[..n] == tasks[..n][i := tasks[i].(progress := to)];
    } else {
      assert tasks'[..n] == tasks[..n];
    }
  }

  // The callback up to its await is a claim and, if that succeeds, two more steps of the run.
  lemma DispatchIsSteps(s: System, i: nat)
    requires MayStart(s.lanes, i)
    ensures Dispatched'(s, i) == Run(s, if At(ClaimStep(s, i), i, Claimed) then [ClaimOp(i), RunOp(i), CallOp(i)]
                                        else [ClaimOp(i)])
  {
    assert [ClaimOp(i)][..0] == [];
    assert Run(s, [ClaimOp(i)]) == ClaimStep(s, i);
    if At(ClaimStep(s, i), i, Claimed) {
      var ops := [ClaimOp(i), RunOp(i), CallOp(i)];
      assert ops[..2] == [ClaimOp(i), RunOp(i)] && ops[..2][..1] == [ClaimOp(i)];
      assert Run(s, ops[..2]) == RunStep(ClaimStep(s, i), i);
    }
  }

  lemma DispatchKeeps(s: System, i: nat)
    requires Valid(s) && Covered(s) && MayStart(s.lanes, i)
    ensures Valid(Dispatched'(s, i)) && Covered(Dispatched'(s, i))
  {
    var claimed := ClaimStep(s, i);
    ClaimKeeps(s, i);
    ClaimCovers(s, i);
    if At(claimed, i, Claimed) {
      RunKeeps(claimed, i);
      RunCovers(claimed, i);
      CallKeeps(RunStep(claimed, i), i);
      CallCovers(RunStep(claimed, i), i);
    }
  }

  lemma DispatchMoves(s: System, i: nat)
    requires MayStart(s.lanes, i)
    ensures Dispatched'(s, i).lanes == Moved(s.lanes, i, Called) || Dispatched'(s, i).lanes == Moved(s.lanes, i, Settled)
  {
    var claimed := ClaimStep(s, i);
    if At(claimed, i, Claimed) {
      var p := if IsLocal(RunStep(claimed, i), i) then Settled else Called;
      assert CallStep(RunStep(claimed, i), i).lanes.tasks == Moved(s.lanes, i, p).tasks;
    }
  }

  // Between two callbacks no task is in the middle of one.
  ghost predicate BetweenCallbacks(tasks: seq<Task>) {
    forall i :: 0 <= i < |tasks| ==> tasks[i].progress in {Waiting, Called, Settled}
  }

  // Task `i`, the oldest that has not settled, moves on.
  method ServeOldest(service: DurableCommandService, i: nat, outcome: Outcome)
    requires Valid(service.Contents()) && Covered(service.Contents())
    requires BetweenCallbacks(service.lanes.tasks)
    requires i < |service.lanes.tasks| && !service.lanes.tasks[i].progress.Settled?
    requires forall j :: 0 <= j < i ==> service.lanes.tasks[j].progress.Settled?
    modifies service, service.leases, service.lanes
    ensures Valid(service.Contents()) && Covered(service.Contents())
    ensures BetweenCallbacks(service.lanes.tasks)
    ensures |service.lanes.tasks| == |old(service.lanes.tasks)|
    ensures forall j :: 0 <= j < i ==> service.lanes.tasks[j].progress.Settled?
    ensures Work(service.lanes.tasks) < Work(old(service.lanes.tasks))
  {
    ghost var s := service.Contents();
    if service.lanes.tasks[i].progress.Waiting? {
      OldestCanProceed(s.lanes, i);
      DispatchKeeps(s, i);
      DispatchMoves(s, i);
      WorkDrops(s.lanes.tasks, i, Called);
      WorkDrops(s.lanes.tasks, i, Settled);
      service.Dispatch(i);
    } else {
      FinishKeeps(s, i, outcome);
      FinishCovers(s, i, outcome);
      WorkDrops(s.lanes.tasks, i, Settled);
      service.Settle(i, outcome);
    }
  }

  // Whatever the adapter answers, serving the oldest task until none is left settles every command.
  method DrainLanes(service: DurableCommandService, outcomes: string -> Outcome)
    requires Valid(service.Contents()) && Covered(service.Contents())
    requires BetweenCallbacks(service.lanes.tasks)
    modifies service, service.leases, service.lanes
    ensures Valid(service.Contents())
    ensures forall id :: id in service.commands ==> Terminal(service.commands[id].state)
  {
    var i := 0;
    while i < |service.lanes.tasks|
      invariant i <= |service.lanes.tasks|
      invariant Valid(service.Contents()) && Covered(service.Contents())
      invariant BetweenCallbacks(service.lanes.tasks)
      invariant forall j :: 0 <= j < i ==> service.lanes.tasks[j].progress.Settled?
      decreases Work(service.lanes.tasks), |service.lanes.tasks| - i
    {
      if service.lanes.tasks[i].progress.Settled? {
        i := i + 1;
      } else {
        ServeOldest(service, i, outcomes(service.lanes.tasks[i].command));
      }
    }
    NoTaskNoDebt(service.Contents());
  }
}
