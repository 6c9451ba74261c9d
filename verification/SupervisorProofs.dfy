// What the supervisor keeps over every run of completed operations.
module SupervisorProofs {
  import opened Wrappers
  import opened SlidingWindow
  import opened Supervisor

  // ----- The invariant -----

  ghost predicate Distinct(ids: seq<string>) {
    forall i, j :: 0 <= i < j < |ids| ==> ids[i] != ids[j]
  }

  ghost predicate Indexed(h: Host) {
    Distinct(h.order) && forall id :: id in h.entries <==> id in h.order
  }

  // Between operations no session is starting or stopping, and a process is held exactly in the
  // idle, running, waiting and compacting states.
  predicate Resting(e: Entry) {
    !e.state.Starting? && !e.state.Stopping? && (e.hasProcess <==> Live(e.state))
  }

  ghost predicate Held(h: Host) {
    Indexed(h) && forall id :: id in h.entries ==> Resting(h.entries[id])
  }

  function LiveCount(h: Host): nat
    requires Known(h)
  {
    Occupied(h.entries, h.order, None)
  }

  ghost predicate Valid(c: Config, h: Host) {
    Held(h) && LiveCount(h) <= c.capacity
  }

  // ----- Counting -----

  function Weight(e: Entry): nat {
    if Occupies(e) then 1 else 0
  }

  lemma {:induction false} OccupiedFrame(entries: map<string, Entry>, id: string, e: Entry, ids: seq<string>,
        except: Option<string>)
    requires (forall k :: k in ids ==> k in entries) && id !in ids
    ensures Occupied(entries[id := e], ids, except) == Occupied(entries, ids, except)
  {
    if ids != [] {
      OccupiedFrame(entries, id, e, ids[..|ids| - 1], except);
    }
  }

  lemma {:induction false} OccupiedUpdate(entries: map<string, Entry>, id: string, e: Entry, ids: seq<string>)
    requires (forall k :: k in ids ==> k in entries) && Distinct(ids) && id in ids
    ensures Occupied(entries[id := e], ids, None) + Weight(entries[id]) == Occupied(entries, ids, None) + Weight(e)
  {
    var n := |ids| - 1;
    if ids[n] == id {
      OccupiedFrame(entries, id, e, ids[..n], None);
    } else {
      OccupiedUpdate(entries, id, e, ids[..n]);
    }
  }

  lemma {:induction false} OccupiedOthers(entries: map<string, Entry>, id: string, ids: seq<string>)
    requires (forall k :: k in ids ==> k in entries) && Distinct(ids)
    ensures Occupied(entries, ids, Some(id)) + (if id in ids then Weight(entries[id]) else 0) == Occupied(entries, ids, None)
  {
    if ids != [] {
      OccupiedOthers(entries, id, ids[..|ids| - 1]);
    }
  }

  // Replacing one entry by a resting one.
  lemma UpdateExact(h: Host, id: string, e: Entry)
    requires Held(h) && id in h.entries && Resting(e)
    ensures var h' := h.(entries := h.entries[id := e]);
            Held(h') && LiveCount(h') + Weight(h.entries[id]) == LiveCount(h) + Weight(e)
  {
    OccupiedUpdate(h.entries, id, e, h.order);
  }

  // ----- Each operation -----

  lemma StopExact(h: Host, id: string)
    requires Held(h) && id in h.entries
    ensures var (h', r) := Stop(h, id);
            && r.Ok? && Held(h') && h'.order == h.order && h'.draining == h.draining
            && h'.entries == h.entries[id := h'.entries[id]]
            && h'.entries[id].state.Stopped? && !h'.entries[id].hasProcess
            && h'.entries[id].restartTimestamps == h.entries[id].restartTimestamps
            && LiveCount(h') + Weight(h.entries[id]) == LiveCount(h)
  {
    var e := StoppedEntry(h.entries[id]).value;
    UpdateExact(h, id, e);
  }

  predicate Startable(h: Host, id: string) {
    id in h.entries && !h.draining && h.entries[id].state in STARTABLE
  }

  // When a start is refused for capacity, and that it then changes nothing.
  lemma RefusedExactly(c: Config, h: Host, id: string, spec: string, now: int, spawns: bool)
    requires Valid(c, h)
    ensures Start(c, h, id, spec, now, spawns).1 == Err(HostCapacity)
       <==> Startable(h, id) && LiveCount(h) == c.capacity
            && forall other :: other in h.entries ==> !Evictable(h.entries[other])
    ensures Start(c, h, id, spec, now, spawns).1.Err? && Start(c, h, id, spec, now, spawns).1.error != SpawnFailed
        ==> Start(c, h, id, spec, now, spawns).0 == h
  {
    if Startable(h, id) {
      OccupiedOthers(h.entries, id, h.order);
      VictimIsLeastRecentlyActive(h.entries, h.order, id);
    }
  }

  // A start that goes ahead changes its own session and, only when the host is full, one other:
  // the least recently active idle session without attention, which it stops.
  lemma StartExact(c: Config, h: Host, id: string, spec: string, now: int,
        spawns: bool) returns (victim: Option<string>)
    requires Valid(c, h) && Startable(h, id) && Start(c, h, id, spec, now, spawns).1 != Err(HostCapacity)
    ensures var (h', r) := Start(c, h, id, spec, now, spawns);
            && Valid(c, h') && h'.order == h.order && h'.draining == h.draining
            && r == (if spawns then Ok(()) else Err(SpawnFailed))
            && h'.entries.Keys == h.entries.Keys
            && h'.entries[id] == Spawned(h.entries[id], spec, now, spawns)
            && (victim.Some? <==> LiveCount(h) == c.capacity)
            && (forall other :: other in h.entries && other != id && Some(other) != victim
                  ==> h'.entries[other] == h.entries[other])
            && (victim.Some? ==>
                  var v := victim.value;
                  && v in h.entries && v != id && Evictable(h.entries[v])
                  && h'.entries[v].state.Stopped? && !h'.entries[v].hasProcess
                  && h'.entries[v].restartTimestamps == h.entries[v].restartTimestamps
                  && forall other :: other in h.entries && Evictable(h.entries[other])
                       ==> h.entries[v].lastActivityAt <= h.entries[other].lastActivityAt)
  {
    OccupiedOthers(h.entries, id, h.order);
    VictimIsLeastRecentlyActive(h.entries, h.order, id);
    var full := Occupied(h.entries, h.order, Some(id)) >= c.capacity;
    victim := if full then Victim(h.entries, h.order, id) else None;
    var room := h;
    if full {
      StopExact(h, victim.value);
      room := Stop(h, victim.value).0;
    }
    UpdateExact(room, id, Spawned(h.entries[id], spec, now, spawns));
  }

  lemma StartKeeps(c: Config, h: Host, id: string, spec: string, now: int, spawns: bool)
    requires Valid(c, h)
    ensures var h' := Start(c, h, id, spec, now, spawns).0;
            && Valid(c, h') && h'.order == h.order && h'.draining == h.draining && h'.entries.Keys == h.entries.Keys
            && (h.draining ==> h' == h)
            && (forall other :: other in h.entries ==>
                  h'.entries[other].restartTimestamps == h.entries[other].restartTimestamps)
  {
    RefusedExactly(c, h, id, spec, now, spawns);
    if Startable(h, id) && Start(c, h, id, spec, now, spawns).1 != Err(HostCapacity) {
      var _ := StartExact(c, h, id, spec, now, spawns);
    }
  }

  // Replacing an entry by one with the same process keeps the invariant exactly when that one rests.
  lemma ReplacedKeepsExactly(c: Config, h: Host, id: string, e: Entry)
    requires Valid(c, h) && id in h.entries && e.hasProcess == h.entries[id].hasProcess
    ensures var h' := h.(entries := h.entries[id := e]);
            && (Valid(c, h') <==> Resting(e))
            && (Resting(e) ==> LiveCount(h') == LiveCount(h))
  {
    var h' := h.(entries := h.entries[id := e]);
    assert h'.entries[id] == e;
    if Resting(e) {
      UpdateExact(h, id, e);
    }
  }

  // The transitions that keep a process held exactly where it should be.
  predicate SafeMove(from: State, to: State) {
    !MayMove(from, to) || from == to || Live(to) || (!Live(from) && !to.Starting? && !to.Stopping?)
  }

  // `transition` moves a session without touching its process, so it keeps the invariant exactly
  // on these moves. Every caller moves among the four live states.
  lemma TransitionKeepsExactly(c: Config, h: Host, id: string, to: State, attention: Option<Attention>, now: int)
    requires Valid(c, h) && id in h.entries
    ensures Valid(c, Transition(h, id, to, attention, now).0) <==> SafeMove(h.entries[id].state, to)
    ensures SafeMove(h.entries[id].state, to) ==> LiveCount(Transition(h, id, to, attention, now).0) <= LiveCount(h)
  {
    var e := h.entries[id].(attention := attention.GetOr(h.entries[id].attention));
    if !MayMove(e.state, to) {
      ReplacedKeepsExactly(c, h, id, e);
    } else {
      var moved := e.(state := to, lastActivityAt := now);
      ReplacedKeepsExactly(c, h, id, moved);
      if h.draining && to.Idle? && e.attention.NoAttention? {
        StopExact(h.(entries := h.entries[id := moved]), id);
      }
    }
  }

  lemma ExitKeeps(c: Config, h: Host, id: string, now: int)
    requires Valid(c, h)
    ensures Valid(c, UnexpectedExit(c, h, id, now).0)
    ensures LiveCount(UnexpectedExit(c, h, id, now).0) <= LiveCount(h)
  {
    if id in h.entries && h.entries[id].state in ACTIVE {
      UpdateExact(h, id, ExitedEntry(c, h.entries[id], h.draining, now));
    }
  }

  lemma RetryKeeps(c: Config, h: Host, id: string, now: int, spawns: bool)
    requires Valid(c, h)
    ensures var h' := ManualRetry(c, h, id, now, spawns).0;
            && Valid(c, h') && h'.draining == h.draining && h'.entries.Keys == h.entries.Keys
            && (h.draining ==> LiveCount(h') == LiveCount(h))
            && (forall other :: other in h.entries && other != id ==>
                  h'.entries[other].restartTimestamps == h.entries[other].restartTimestamps)
  {
    if id in h.entries && h.entries[id].state in RETRYABLE && h.entries[id].spec.Some? {
      var e := h.entries[id];
      var cleared := e.(restartTimestamps := [], state := if e.state.CrashLoop? then Stopped else e.state);
      UpdateExact(h, id, cleared);
      StartKeeps(c, h.(entries := h.entries[id := cleared]), id, e.spec.value, now, spawns);
    }
  }

  // What every step of a tick or a drain keeps.
  ghost predicate Gentle(c: Config, h: Host, h': Host) {
    && Valid(c, h') && h'.order == h.order && h'.entries.Keys == h.entries.Keys
    && (h.draining ==> h'.draining && LiveCount(h') <= LiveCount(h))
    && forall id :: id in h.entries ==> h'.entries[id].restartTimestamps == h.entries[id].restartTimestamps
  }

  lemma TickEntryKeeps(c: Config, h: Host, id: string, now: int, spawns: bool)
    requires Valid(c, h) && id in h.entries
    ensures Gentle(c, h, TickEntry(c, h, id, now, spawns))
  {
    var e := h.entries[id];
    var rested := if Evictable(e) && now - e.lastActivityAt >= c.idleTimeoutMs then Stop(h, id).0 else h;
    if Evictable(e) && now - e.lastActivityAt >= c.idleTimeoutMs {
      StopExact(h, id);
    }
    assert Gentle(c, h, rested);
    var e' := rested.entries[id];
    if e'.state.RetryWait? && e'.retryAt.Some? && now >= e'.retryAt.value && e'.spec.Some? {
      UpdateExact(rested, id, e'.(retryAt := None));
      StartKeeps(c, rested.(entries := rested.entries[id := e'.(retryAt := None)]), id, e'.spec.value, now, spawns);
    }
  }

  lemma {:induction false} TickKeeps(c: Config, h: Host, ids: seq<string>, now: int, spawns: string -> bool)
    requires Valid(c, h) && forall id :: id in ids ==> id in h.entries
    ensures Gentle(c, h, TickFrom(c, h, ids, now, spawns))
  {
    if ids != [] {
      var n := |ids| - 1;
      TickKeeps(c, h, ids[..n], now, spawns);
      TickEntryKeeps(c, TickFrom(c, h, ids[..n], now, spawns), ids[n], now, spawns(ids[n]));
    }
  }

  // Draining stops every idle session without attention that it visits, and starts nothing.
  lemma {:induction false} DrainKeeps(c: Config, h: Host, ids: seq<string>)
    requires Valid(c, h) && h.draining && forall id :: id in ids ==> id in h.entries
    ensures Gentle(c, h, DrainFrom(h, ids))
    ensures forall id :: id in ids ==> !Evictable(DrainFrom(h, ids).entries[id])
    ensures forall id :: id in h.entries ==>
              DrainFrom(h, ids).entries[id]
              == if id in ids && Evictable(h.entries[id]) then h.entries[id].(state := Stopped, hasProcess := false)
                 else h.entries[id]
  {
    if ids != [] {
      var n := |ids| - 1;
      DrainKeeps(c, h, ids[..n]);
      StopExact(DrainFrom(h, ids[..n]), ids[n]);
      assert forall id :: id in ids <==> id in ids[..n] || id == ids[n];
    }
  }

  // ----- Runs -----

  datatype Op =
    | RegisterOp(id: string, initial: State, now: int)
    | StartOp(id: string, spec: string, now: int, spawns: bool)
    | TransitionOp(id: string, to: State, attention: Option<Attention>, now: int)
    | AttentionOp(id: string, value: Attention, now: int)
    | ExitOp(id: string, now: int)
    | RetryOp(id: string, now: int, spawns: bool)
    | StopOp(id: string, now: int)
    | TickOp(now: int, spawnsOf: string -> bool)
    | DrainOp(now: int)
    | RebootOp(now: int)

  function Apply(c: Config, h: Host, op: Op): (h': Host)
    requires Known(h)
    ensures Known(h')
  {
    match op
    case RegisterOp(id, initial, now) => Register(h, id, initial, now)
    case StartOp(id, spec, now, spawns) => Start(c, h, id, spec, now, spawns).0
    case TransitionOp(id, to, attention, now) => Transition(h, id, to, attention, now).0
    case AttentionOp(id, attention, now) => SetAttention(h, id, attention, now).0
    case ExitOp(id, now) => UnexpectedExit(c, h, id, now).0
    case RetryOp(id, now, spawns) => ManualRetry(c, h, id, now, spawns).0
    case StopOp(id, _) => Stop(h, id).0
    case TickOp(now, spawns) => TickFrom(c, h, h.order, now, spawns)
    case DrainOp(_) => Drain(h)
    case RebootOp(now) => Reboot(h, now)
  }

  // A state that no process goes with.
  predicate Dormant(state: State) {
    !Live(state) && !state.Starting? && !state.Stopping?
  }

  predicate Proper(op: Op) {
    (op.TransitionOp? ==> Live(op.to)) && (op.RegisterOp? ==> Dormant(op.initial))
  }

  lemma {:induction false} NoneOccupied(entries: map<string, Entry>, ids: seq<string>)
    requires forall id :: id in ids ==> id in entries && !entries[id].hasProcess
    ensures Occupied(entries, ids, None) == 0
  {
    if ids != [] {
      NoneOccupied(entries, ids[..|ids| - 1]);
    }
  }

  lemma RegisterIndexed(h: Host, id: string, state: State, now: int)
    requires Indexed(h)
    ensures Indexed(Register(h, id, state, now))
  {
  }

  lemma RegisterHolds(h: Host, id: string, state: State, now: int)
    requires Held(h) && id !in h.entries
    ensures Held(Register(h, id, state, now)) <==> Dormant(state)
  {
    var h' := Register(h, id, state, now);
    RegisterIndexed(h, id, state, now);
    assert id in h'.entries && (Resting(h'.entries[id]) <==> Dormant(state));
  }

  lemma RegisterCounts(h: Host, id: string, state: State, now: int)
    requires Indexed(h) && id !in h.entries
    ensures LiveCount(Register(h, id, state, now)) == LiveCount(h)
  {
    var h' := Register(h, id, state, now);
    assert h'.order[..|h.order|] == h.order;
    OccupiedFrame(h.entries, id, h'.entries[id], h.order, None);
  }

  // A session is registered without a process, so registering keeps the invariant exactly on the
  // states that need none.
  lemma RegisterKeepsExactly(c: Config, h: Host, id: string, state: State, now: int)
    requires Valid(c, h)
    ensures Valid(c, Register(h, id, state, now)) <==> id in h.entries || Dormant(state)
    ensures LiveCount(Register(h, id, state, now)) == LiveCount(h)
  {
    if id !in h.entries {
      RegisterHolds(h, id, state, now);
      RegisterCounts(h, id, state, now);
    }
  }

  // Every operation keeps a process held exactly in the live states and the live count within
  // capacity, and while draining none but a reboot raises the live count.
  lemma ApplyKeeps(c: Config, h: Host, op: Op)
    requires Valid(c, h) && Proper(op)
    ensures Valid(c, Apply(c, h, op))
    ensures h.draining && !op.RebootOp? ==> Apply(c, h, op).draining && LiveCount(Apply(c, h, op)) <= LiveCount(h)
  {
    match op
    case RegisterOp(id, initial, now) => RegisterKeepsExactly(c, h, id, initial, now);
    case StartOp(id, spec, now, spawns) => StartKeeps(c, h, id, spec, now, spawns);
    case TransitionOp(id, to, attention, now) =>
      if id in h.entries { TransitionKeepsExactly(c, h, id, to, attention, now); }
    case AttentionOp(id, attention, now) =>
      if id in h.entries { UpdateExact(h, id, h.entries[id].(attention := attention, lastActivityAt := now)); }
    case ExitOp(id, now) => ExitKeeps(c, h, id, now);
    case RetryOp(id, now, spawns) => RetryKeeps(c, h, id, now, spawns);
    case StopOp(id, _) => if id in h.entries { StopExact(h, id); }
    case TickOp(now, spawns) => TickKeeps(c, h, h.order, now, spawns);
    case DrainOp(_) => DrainKeeps(c, h.(draining := true), h.order);
    case RebootOp(now) => NoneOccupied(Reboot(h, now).entries, h.order);
  }

  function Run(c: Config, ops: seq<Op>): (h: Host)
    ensures Known(h)
  {
    if ops == [] then Host(map[], [], false) else Apply(c, Run(c, ops[..|ops| - 1]), ops[|ops| - 1])
  }

  // Over every run: a process is held exactly in the live states, and live processes stay within
  // the host's capacity.
  lemma {:induction false} CapacityHolds(c: Config, ops: seq<Op>)
    requires forall op :: op in ops ==> Proper(op)
    ensures Valid(c, Run(c, ops))
  {
    if ops != [] {
      var n := |ops| - 1;
      CapacityHolds(c, ops[..n]);
      assert ops[n] in ops;
      ApplyKeeps(c, Run(c, ops[..n]), ops[n]);
    }
  }

  function IdleRun(id: string, spec: string): seq<Op> {
    [RegisterOp(id, Stopped, 0), StartOp(id, spec, 0, true)]
  }

  lemma RegisteredFirst(c: Config, id: string)
    ensures Run(c, [RegisterOp(id, Stopped, 0)])
         == Host(map[id := Entry(Stopped, NoAttention, false, None, 0, [], None)], [id], false)
  {
    var one := [RegisterOp(id, Stopped, 0)];
    assert one[..0] == [];
  }

  lemma IdleRunIsIdle(c: Config, id: string, spec: string)
    requires c.capacity >= 1
    ensures var h := Run(c, IdleRun(id, spec)); id in h.entries && h.entries[id].state.Idle? && h.entries[id].hasProcess
  {
    RegisteredFirst(c, id);
    assert IdleRun(id, spec)[..1] == [RegisterOp(id, Stopped, 0)];
    assert [id][..0] == [];
    var entries := map[id := Entry(Stopped, NoAttention, false, None, 0, [], None)];
    assert Occupied(entries, [id], Some(id)) == 0;
  }

  // Outside those moves the invariant does break: a reachable idle session that `transition` puts in
  // the crashed state still holds its process.
  lemma UnsafeTransitionWitness(c: Config, id: string, spec: string)
    requires c.capacity >= 1
    ensures var h := Run(c, IdleRun(id, spec));
            && (forall op :: op in IdleRun(id, spec) ==> Proper(op)) && Valid(c, h) && id in h.entries
            && Transition(h, id, Crashed, None, 1).1.Ok? && !SafeMove(h.entries[id].state, Crashed)
            && Transition(h, id, Crashed, None, 1).0.entries[id].hasProcess
            && !Valid(c, Transition(h, id, Crashed, None, 1).0)
  {
    IdleRunIsIdle(c, id, spec);
    CapacityHolds(c, IdleRun(id, spec));
    TransitionKeepsExactly(c, Run(c, IdleRun(id, spec)), id, Crashed, None, 1);
  }

  function Continue(c: Config, h: Host, ops: seq<Op>): (h': Host)
    requires Known(h)
    ensures Known(h')
  {
    if ops == [] then h else Apply(c, Continue(c, h, ops[..|ops| - 1]), ops[|ops| - 1])
  }

  // Once draining begins, the number of live processes never rises again until a reboot; and the
  // drain itself leaves live only sessions that are busy or want attention.
  lemma {:induction false} DrainingNeverRises(c: Config, h: Host, ops: seq<Op>)
    requires Valid(c, h) && h.draining && forall op :: op in ops ==> Proper(op) && !op.RebootOp?
    ensures var h' := Continue(c, h, ops);
            Valid(c, h') && h'.draining && LiveCount(h') <= LiveCount(h)
  {
    if ops != [] {
      var n := |ops| - 1;
      DrainingNeverRises(c, h, ops[..n]);
      assert ops[n] in ops;
      ApplyKeeps(c, Continue(c, h, ops[..n]), ops[n]);
    }
  }

  lemma DrainStopsTheIdle(c: Config, h: Host)
    requires Valid(c, h)
    ensures Drain(h).draining && Valid(c, Drain(h)) && LiveCount(Drain(h)) <= LiveCount(h)
    ensures forall id :: id in h.entries ==> !Evictable(Drain(h).entries[id])
    ensures forall id :: id in h.entries && !Evictable(h.entries[id]) ==> Drain(h).entries[id] == h.entries[id]
  {
    DrainKeeps(c, h.(draining := true), h.order);
  }

  // ----- The crash-loop detector -----

  function Time(op: Op): int {
    match op
    case RegisterOp(_, _, now) => now
    case StartOp(_, _, now, _) => now
    case TransitionOp(_, _, _, now) => now
    case AttentionOp(_, _, now) => now
    case ExitOp(_, now) => now
    case RetryOp(_, now, _) => now
    case StopOp(_, now) => now
    case TickOp(now, _) => now
    case DrainOp(now) => now
    case RebootOp(now) => now
  }

  ghost predicate ClockNeverRunsBack(ops: seq<Op>) {
    forall i, j :: 0 <= i < j < |ops| ==> Time(ops[i]) <= Time(ops[j])
  }

  // A crash is counted when the exit is accepted; a manual retry clears the count when it is.
  predicate Crashes(h: Host, op: Op, id: string) {
    op.ExitOp? && op.id == id && id in h.entries && h.entries[id].state in ACTIVE
  }

  predicate Clears(h: Host, op: Op, id: string) {
    op.RetryOp? && op.id == id && id in h.entries && h.entries[id].state in RETRYABLE && h.entries[id].spec.Some?
  }

  // Every crash of a session since its last manual retry, never pruned.
  function CrashHistory(c: Config, ops: seq<Op>, id: string): seq<int> {
    if ops == [] then []
    else
      var n := |ops| - 1;
      NextHistory(Run(c, ops[..n]), CrashHistory(c, ops[..n], id), ops[n], id)
  }

  function NextHistory(h: Host, history: seq<int>, op: Op, id: string): seq<int> {
    if Crashes(h, op, id) then history + [Time(op)] else if Clears(h, op, id) then [] else history
  }

  lemma {:induction false} HistoryIsPast(c: Config, ops: seq<Op>, id: string, now: int)
    requires forall op :: op in ops ==> Time(op) <= now
    ensures forall t :: t in CrashHistory(c, ops, id) ==> t <= now
  {
    if ops != [] {
      HistoryIsPast(c, ops[..|ops| - 1], id, now);
      assert ops[|ops| - 1] in ops;
    }
  }

  lemma RetryStamps(c: Config, h: Host, op: Op, id: string)
    requires Valid(c, h) && Proper(op) && id in h.entries && op.RetryOp?
    ensures id in Apply(c, h, op).entries
    ensures Apply(c, h, op).entries[id].restartTimestamps
         == if Clears(h, op, id) then [] else h.entries[id].restartTimestamps
  {
    RetryKeeps(c, h, op.id, op.now, op.spawns);
    if Clears(h, op, id) {
      var e := h.entries[id];
      var cleared := e.(restartTimestamps := [], state := if e.state.CrashLoop? then Stopped else e.state);
      UpdateExact(h, id, cleared);
      StartKeeps(c, h.(entries := h.entries[id := cleared]), id, e.spec.value, op.now, op.spawns);
    }
  }

  // Which operations touch a session's stamps.
  lemma StampsStep(c: Config, h: Host, op: Op, id: string)
    requires Valid(c, h) && Proper(op) && id in h.entries
    ensures id in Apply(c, h, op).entries
    ensures Apply(c, h, op).entries[id].restartTimestamps
         == if Crashes(h, op, id) then Recorded(h.entries[id].restartTimestamps, Time(op), c.restartWindowMs)
            else if Clears(h, op, id) then [] else h.entries[id].restartTimestamps
  {
    match op
    case StartOp(target, spec, now, spawns) => StartKeeps(c, h, target, spec, now, spawns);
    case RetryOp(_, _, _) => RetryStamps(c, h, op, id);
    case StopOp(target, _) => if target in h.entries { StopExact(h, target); }
    case TickOp(now, spawns) => TickKeeps(c, h, h.order, now, spawns);
    case DrainOp(_) => DrainKeeps(c, h.(draining := true), h.order);
    case TransitionOp(target, to, attention, now) => TransitionKeepsStamps(h, target, to, attention, now);
    case _ =>
  }

  lemma TransitionKeepsStamps(h: Host, id: string, to: State, attention: Option<Attention>, now: int)
    ensures var h' := Transition(h, id, to, attention, now).0;
            && h'.entries.Keys == h.entries.Keys
            && forall other :: other in h.entries ==>
                 h'.entries[other].restartTimestamps == h.entries[other].restartTimestamps
  {
  }

  ghost predicate StampsMatch(c: Config, h: Host, history: seq<int>, id: string) {
    if id in h.entries then h.entries[id].restartTimestamps == Window(history, c.restartWindowMs) else history == []
  }

  lemma StampsMatchStep(c: Config, h: Host, history: seq<int>, op: Op, id: string)
    requires Valid(c, h) && Proper(op) && StampsMatch(c, h, history, id)
    requires forall t :: t in history ==> t <= Time(op)
    ensures StampsMatch(c, Apply(c, h, op), NextHistory(h, history, op, id), id)
  {
    if id in h.entries {
      StampsStep(c, h, op, id);
      RecordedIsWindow(history, Time(op), c.restartWindowMs);
    } else {
      NewSessionIsClean(c, h, op, id);
    }
  }

  // The pruned list a session keeps is its whole crash history cut to the window, over every run.
  lemma {:induction false} StampsAreWindow(c: Config, ops: seq<Op>, id: string)
    requires (forall op :: op in ops ==> Proper(op)) && ClockNeverRunsBack(ops)
    ensures StampsMatch(c, Run(c, ops), CrashHistory(c, ops, id), id)
  {
    if ops != [] {
      var n := |ops| - 1;
      assert ops[n] in ops;
      StampsAreWindow(c, ops[..n], id);
      CapacityHolds(c, ops[..n]);
      HistoryIsPast(c, ops[..n], id, Time(ops[n]));
      StampsMatchStep(c, Run(c, ops[..n]), CrashHistory(c, ops[..n], id), ops[n], id);
    }
  }

  lemma NewSessionIsClean(c: Config, h: Host, op: Op, id: string)
    requires Valid(c, h) && Proper(op) && id !in h.entries
    ensures id in Apply(c, h, op).entries ==> Apply(c, h, op).entries[id].restartTimestamps == []
  {
    match op
    case StartOp(target, spec, now, spawns) => StartKeeps(c, h, target, spec, now, spawns);
    case RetryOp(target, now, spawns) => RetryKeeps(c, h, target, now, spawns);
    case StopOp(target, _) => if target in h.entries { StopExact(h, target); }
    case TransitionOp(target, to, attention, now) => TransitionKeepsStamps(h, target, to, attention, now);
    case _ =>
  }

  // The state that a crash ending `history` puts the session in.
  function Verdict(c: Config, history: seq<int>, draining: bool): State
    requires history != []
  {
    if !Passes(history, |history| - 1, c.restartWindowMs, c.restartLimit) then CrashLoop
    else if draining then Stopped else RetryWait
  }

  lemma ExitVerdict(c: Config, e: Entry, draining: bool, history: seq<int>, now: int)
    requires e.restartTimestamps == Window(history, c.restartWindowMs) && forall t :: t in history ==> t <= now
    ensures ExitedEntry(c, e, draining, now).state == Verdict(c, history + [now], draining)
  {
    RecordedIsWindow(history, now, c.restartWindowMs);
    assert (history + [now])[..|history| + 1] == history + [now];
  }

  // A crash enters the crash loop exactly when `restartLimit` or more crashes since the last manual
  // retry fall in the window ending with it, and is otherwise retried unless the host is draining.
  lemma {:induction false} CrashVerdict(c: Config, ops: seq<Op>, id: string, now: int)
    requires (forall op :: op in ops ==> Proper(op) && Time(op) <= now) && ClockNeverRunsBack(ops)
    requires Crashes(Run(c, ops), ExitOp(id, now), id)
    ensures CrashHistory(c, ops + [ExitOp(id, now)], id) == CrashHistory(c, ops, id) + [now]
    ensures Run(c, ops + [ExitOp(id, now)]).entries[id].state
         == Verdict(c, CrashHistory(c, ops, id) + [now], Run(c, ops).draining)
  {
    var all := ops + [ExitOp(id, now)];
    assert all[..|all| - 1] == ops && all[|all| - 1] == ExitOp(id, now);
    StampsAreWindow(c, ops, id);
    HistoryIsPast(c, ops, id, now);
    ExitVerdict(c, Run(c, ops).entries[id], Run(c, ops).draining, CrashHistory(c, ops, id), now);
  }

  // The automatic retries granted to a session since its last manual retry, by time: the crashes
  // after which it waits to be started again.
  function Retried(c: Config, ops: seq<Op>, id: string, from: int, to: int): nat {
    if ops == [] then 0
    else
      var n := |ops| - 1;
      var h, h' := Run(c, ops[..n]), Run(c, ops);
      var before := Retried(c, ops[..n], id, from, to);
      if Clears(h, ops[n], id) then 0
      else if Crashes(h, ops[n], id) && id in h'.entries && h'.entries[id].state.RetryWait? && from <= Time(ops[n]) <= to
      then before + 1
      else before
  }

  // A crash that leaves a session waiting for its retry has passed the detector.
  lemma CrashPasses(c: Config, history: seq<int>, now: int, draining: bool, from: int, to: int)
    ensures var before := PassedIn(history, |history|, from, to, c.restartWindowMs, c.restartLimit);
            var after := PassedIn(history + [now], |history| + 1, from, to, c.restartWindowMs, c.restartLimit);
            && before <= after
            && (Verdict(c, history + [now], draining).RetryWait? && from <= now <= to ==> after == before + 1)
  {
    var more := history + [now];
    PassedInPrefix(history, more, |history|, from, to, c.restartWindowMs, c.restartLimit);
    assert more[|history|] == now;
  }

  lemma {:induction false} RetriedPassed(c: Config, ops: seq<Op>, id: string, from: int, to: int)
    requires (forall op :: op in ops ==> Proper(op)) && ClockNeverRunsBack(ops)
    ensures var history := CrashHistory(c, ops, id);
            Retried(c, ops, id, from, to) <= PassedIn(history, |history|, from, to, c.restartWindowMs, c.restartLimit)
  {
    if ops != [] {
      var n := |ops| - 1;
      RetriedPassed(c, ops[..n], id, from, to);
      if Crashes(Run(c, ops[..n]), ops[n], id) {
        var now := Time(ops[n]);
        assert ops == ops[..n] + [ExitOp(id, now)];
        CrashVerdict(c, ops[..n], id, now);
        CrashPasses(c, CrashHistory(c, ops[..n], id), now, Run(c, ops[..n]).draining, from, to);
      }
    }
  }

  // In any stretch of time as long as the window fewer than `restartLimit` automatic retries are
  // granted without a manual one in between, and none when the limit leaves no room.
  lemma FewAutomaticRetries(c: Config, ops: seq<Op>, id: string, from: int)
    requires (forall op :: op in ops ==> Proper(op)) && ClockNeverRunsBack(ops)
    ensures var retried := Retried(c, ops, id, from, from + c.restartWindowMs);
            retried < c.restartLimit || retried == 0
  {
    RetriedPassed(c, ops, id, from, from + c.restartWindowMs);
    FewOrNone(CrashHistory(c, ops, id), from, c.restartWindowMs, c.restartLimit);
  }
}
