// Supervising one agent process per session: a transition table, a capacity with eviction of the
// least recently active idle process, a crash-loop detector, and draining.
module Supervisor {
  import opened Wrappers
  import opened SlidingWindow

  datatype State =
    | Stopped | Starting | Idle | Running | WaitingForInput | RetryWait | Compacting | Stopping
    | Crashed | CrashLoop | Incompatible

  datatype Attention = NoAttention | User | Dialog | Queued

  datatype Entry = Entry(
    state: State,
    attention: Attention,
    hasProcess: bool,
    spec: Option<string>,
    lastActivityAt: int,
    restartTimestamps: seq<int>,
    retryAt: Option<int>)

  datatype Config = Config(
    capacity: nat, idleTimeoutMs: int, restartWindowMs: nat, restartLimit: nat, retryDelayMs: int)

  datatype Error = NotFound | InvalidState | HostCapacity | HostDraining | CrashLooping | SpawnFailed

  // `order` lists the sessions as they were registered, the order a Map iterates in.
  datatype Host = Host(entries: map<string, Entry>, order: seq<string>, draining: bool)

  const ACTIVE: set<State> := {Starting, Idle, Running, WaitingForInput, RetryWait, Compacting, Stopping}
  const STARTABLE: set<State> := {Stopped, Crashed, RetryWait}
  const RETRYABLE: set<State> := {CrashLoop, Crashed, RetryWait}

  function Allowed(from: State): set<State> {
    match from
    case Stopped => {Starting, Incompatible}
    case Starting => {Idle, Crashed, Incompatible, Stopping}
    case Idle => {Running, WaitingForInput, Compacting, Stopping, Crashed}
    case Running => {Idle, WaitingForInput, Compacting, Stopping, Crashed}
    case WaitingForInput => {Idle, Running, Stopping, Crashed}
    case RetryWait => {Starting, Stopping, Crashed, CrashLoop}
    case Compacting => {Idle, Running, Stopping, Crashed}
    case Stopping => {Stopped, Crashed}
    case Crashed => {RetryWait, Starting, CrashLoop, Stopped}
    case CrashLoop => {Starting, Stopped}
    case Incompatible => {Stopped}
  }

  predicate MayMove(from: State, to: State) {
    from == to || to in Allowed(from)
  }

  // The states in which a process at rest is held.
  predicate Live(state: State) {
    state.Idle? || state.Running? || state.WaitingForInput? || state.Compacting?
  }

  predicate Occupies(e: Entry) {
    e.hasProcess && e.state in ACTIVE
  }

  predicate Evictable(e: Entry) {
    e.state.Idle? && e.attention.NoAttention?
  }

  // How many of `ids`, other than `except`, hold a process in an active state.
  function Occupied(entries: map<string, Entry>, ids: seq<string>, except: Option<string>): nat
    requires forall id :: id in ids ==> id in entries
  {
    if ids == [] then 0
    else
      var n := |ids| - 1;
      Occupied(entries, ids[..n], except)
      + (if Some(ids[n]) != except && Occupies(entries[ids[n]]) then 1 else 0)
  }

  // The first of the least recently active evictable sessions, other than `except`.
  function Victim(entries: map<string, Entry>, ids: seq<string>, except: string): Option<string>
    requires forall id :: id in ids ==> id in entries
  {
    if ids == [] then None
    else
      var n := |ids| - 1;
      var best := Victim(entries, ids[..n], except);
      if ids[n] != except && Evictable(entries[ids[n]])
         && (best.None? || (best.value in entries && entries[ids[n]].lastActivityAt < entries[best.value].lastActivityAt))
      then Some(ids[n]) else best
  }

  // ----- Operations, each run to completion -----

  function StoppedEntry(e: Entry): Result<Entry, Error> {
    if e.state.Stopped? then Ok(e)
    else if !e.hasProcess then Ok(e.(state := Stopped))
    else if !MayMove(e.state, Stopping) then Err(InvalidState)
    else Ok(e.(state := Stopped, hasProcess := false))
  }

  function Stop(h: Host, id: string): (Host, Result<(), Error>) {
    if id !in h.entries then (h, Err(NotFound))
    else match StoppedEntry(h.entries[id])
      case Err(error) => (h, Err(error))
      case Ok(e) => (h.(entries := h.entries[id := e]), Ok(()))
  }

  // The entry after its process was created and its spawn succeeded or failed.
  function Spawned(e: Entry, spec: string, now: int, spawns: bool): Entry {
    if spawns then e.(spec := Some(spec), hasProcess := true, state := Idle, lastActivityAt := now)
    else e.(spec := Some(spec), hasProcess := false, state := Crashed)
  }

  predicate Known(h: Host) {
    forall id :: id in h.order ==> id in h.entries
  }

  function Start(c: Config, h: Host, id: string, spec: string, now: int, spawns: bool): (Host, Result<(), Error>)
    requires Known(h)
  {
    if id !in h.entries then (h, Err(NotFound))
    else if h.draining then (h, Err(HostDraining))
    else if h.entries[id].state.CrashLoop? then (h, Err(CrashLooping))
    else if h.entries[id].state !in STARTABLE then (h, Err(InvalidState))
    else
      var victim := Victim(h.entries, h.order, id);
      var full := Occupied(h.entries, h.order, Some(id)) >= c.capacity;
      if full && victim.None? then (h, Err(HostCapacity))
      else
        var room := if full then Stop(h, victim.value).0 else h;
        (room.(entries := room.entries[id := Spawned(h.entries[id], spec, now, spawns)]),
         if spawns then Ok(()) else Err(SpawnFailed))
  }

  function Transition(h: Host, id: string, to: State, attention: Option<Attention>, now: int): (Host,
        Result<(), Error>) {
    if id !in h.entries then (h, Err(NotFound))
    else
      var e := h.entries[id].(attention := attention.GetOr(h.entries[id].attention));
      // The attention is set even when the move is refused.
      if !MayMove(e.state, to) then (h.(entries := h.entries[id := e]), Err(InvalidState))
      else
        var moved := h.(entries := h.entries[id := e.(state := to, lastActivityAt := now)]);
        if h.draining && to.Idle? && e.attention.NoAttention? then (Stop(moved, id).0, Ok(())) else (moved, Ok(()))
  }

  function SetAttention(h: Host, id: string, attention: Attention, now: int): (Host, Result<(), Error>) {
    if id !in h.entries then (h, Err(NotFound))
    else (h.(entries := h.entries[id := h.entries[id].(attention := attention, lastActivityAt := now)]), Ok(()))
  }

  function ExitedEntry(c: Config, e: Entry, draining: bool, now: int): Entry {
    var stamps := Recorded(e.restartTimestamps, now, c.restartWindowMs);
    var crashed := e.(hasProcess := false, restartTimestamps := stamps);
    if |stamps| >= c.restartLimit then crashed.(state := CrashLoop)
    else if draining then crashed.(state := Stopped)
    else crashed.(state := RetryWait, retryAt := Some(now + c.retryDelayMs))
  }

  function UnexpectedExit(c: Config, h: Host, id: string, now: int): (Host, Result<(), Error>) {
    if id !in h.entries then (h, Err(NotFound))
    else if h.entries[id].state !in ACTIVE then (h, Err(InvalidState))
    else (h.(entries := h.entries[id := ExitedEntry(c, h.entries[id], h.draining, now)]), Ok(()))
  }

  function ManualRetry(c: Config, h: Host, id: string, now: int, spawns: bool): (Host, Result<(), Error>)
    requires Known(h)
  {
    if id !in h.entries then (h, Err(NotFound))
    else if h.entries[id].state !in RETRYABLE || h.entries[id].spec.None? then (h, Err(InvalidState))
    else
      var e := h.entries[id];
      var cleared := e.(restartTimestamps := [], state := if e.state.CrashLoop? then Stopped else e.state);
      Start(c, h.(entries := h.entries[id := cleared]), id, e.spec.value, now, spawns)
  }

  function TickEntry(c: Config, h: Host, id: string, now: int, spawns: bool): Host
    requires Known(h) && id in h.entries
    ensures TickEntry(c, h, id, now, spawns).order == h.order
    ensures TickEntry(c, h, id, now, spawns).entries.Keys == h.entries.Keys
  {
    var e := h.entries[id];
    var rested := if Evictable(e) && now - e.lastActivityAt >= c.idleTimeoutMs then Stop(h, id).0 else h;
    var e' := rested.entries[id];
    if e'.state.RetryWait? && e'.retryAt.Some? && now >= e'.retryAt.value && e'.spec.Some?
    then Start(c, rested.(entries := rested.entries[id := e'.(retryAt := None)]), id, e'.spec.value, now, spawns).0
    else rested
  }

  function TickFrom(c: Config, h: Host, ids: seq<string>, now: int, spawns: string -> bool): Host
    requires Known(h) && forall id :: id in ids ==> id in h.entries
    ensures TickFrom(c, h, ids, now, spawns).order == h.order
    ensures TickFrom(c, h, ids, now, spawns).entries.Keys == h.entries.Keys
  {
    if ids == [] then h
    else
      var n := |ids| - 1;
      TickEntry(c, TickFrom(c, h, ids[..n], now, spawns), ids[n], now, spawns(ids[n]))
  }

  lemma TickOneMore(c: Config, h: Host, ids: seq<string>, i: nat, now: int, spawns: string -> bool)
    requires Known(h) && (forall id :: id in ids ==> id in h.entries) && i < |ids|
    ensures TickFrom(c, h, ids[..i + 1], now, spawns)
         == TickEntry(c, TickFrom(c, h, ids[..i], now, spawns), ids[i], now, spawns(ids[i]))
  {
    assert ids[..i + 1][..i] == ids[..i];
  }

  function DrainFrom(h: Host, ids: seq<string>): Host
    requires forall id :: id in ids ==> id in h.entries
    ensures DrainFrom(h, ids).order == h.order && DrainFrom(h, ids).draining == h.draining
    ensures DrainFrom(h, ids).entries.Keys == h.entries.Keys
  {
    if ids == [] then h
    else
      var n := |ids| - 1;
      var before := DrainFrom(h, ids[..n]);
      if Evictable(before.entries[ids[n]]) then Stop(before, ids[n]).0 else before
  }

  function Drain(h: Host): Host
    requires Known(h)
  {
    DrainFrom(h.(draining := true), h.order)
  }

  // The state defaults to stopped.
  function Register(h: Host, id: string, state: State, now: int): Host {
    if id in h.entries then h
    else Host(h.entries[id := Entry(state, NoAttention, false, None, now, [], None)], h.order + [id], h.draining)
  }

  // restoreAfterReboot of the host's own snapshot.
  function Reboot(h: Host, now: int): Host {
    Host(map id | id in h.entries ::
           var e := h.entries[id];
           e.(state := if e.state.CrashLoop? || e.state.Incompatible? then e.state else Stopped,
              hasProcess := false, lastActivityAt := now, retryAt := None),
         h.order, false)
  }

  class ProcessSupervisor {
    const config: Config
    var entries: map<string, Entry>
    var order: seq<string>
    var draining: bool

    function Contents(): Host
      reads this
    {
      Host(entries, order, draining)
    }

    constructor (config: Config)
      ensures Contents() == Host(map[], [], false) && this.config == config
    {
      this.config := config;
      entries, order, draining := map[], [], false;
    }

    method RegisterSession(id: string, state: State, now: int)
      modifies this
      ensures Contents() == Register(old(Contents()), id, state, now)
    {
      if id in entries { return; }
      entries := entries[id := Entry(state, NoAttention, false, None, now, [], None)];
      order := order + [id];
    }

    method OccupiedByOthers(id: string) returns (count: nat)
      requires Known(Contents())
      ensures count == Occupied(entries, order, Some(id))
    {
      count := 0;
      for i := 0 to |order|
        invariant count == Occupied(entries, order[..i], Some(id))
      {
        assert order[..i + 1][..i] == order[..i];
        if order[i] != id && Occupies(entries[order[i]]) { count := count + 1; }
      }
      assert order[..|order|] == order;
    }

    method FindVictim(id: string) returns (victim: Option<string>)
      requires Known(Contents())
      ensures victim == Victim(entries, order, id)
    {
      victim := None;
      for i := 0 to |order|
        invariant victim == Victim(entries, order[..i], id)
        invariant victim.Some? ==> victim.value in entries
      {
        assert order[..i + 1][..i] == order[..i];
        var item := order[i];
        if item != id && Evictable(entries[item])
           && (victim.None? || entries[item].lastActivityAt < entries[victim.value].lastActivityAt) {
          victim := Some(item);
        }
      }
      assert order[..|order|] == order;
    }

    method Move(id: string, to: State) returns (ok: bool)
      requires id in entries
      modifies this`entries
      ensures ok == MayMove(old(entries)[id].state, to)
      ensures entries == if ok then old(entries)[id := old(entries)[id].(state := to)] else old(entries)
    {
      var e := entries[id];
      if !MayMove(e.state, to) {
        return false;
      }
      entries := entries[id := e.(state := to)];
      ok := true;
    }

    method StopSession(id: string) returns (r: Result<(), Error>)
      modifies this`entries
      ensures entries == Stop(old(Contents()), id).0.entries
      ensures (Contents(), r) == Stop(old(Contents()), id)
    {
      if id !in entries { return Err(NotFound); }
      if entries[id].state.Stopped? {
        assert entries == entries[id := entries[id]];
        return Ok(());
      }
      if !entries[id].hasProcess {
        entries := entries[id := entries[id].(state := Stopped)];
        return Ok(());
      }
      var moved := Move(id, Stopping);
      if !moved { return Err(InvalidState); }
      entries := entries[id := entries[id].(hasProcess := false)];
      moved := Move(id, Stopped);
      r := Ok(());
    }

    method StartSession(id: string, spec: string, now: int, spawns: bool) returns (r: Result<(), Error>)
      requires Known(Contents())
      modifies this`entries
      ensures entries == Start(config, old(Contents()), id, spec, now, spawns).0.entries
      ensures (Contents(), r) == Start(config, old(Contents()), id, spec, now, spawns)
    {
      if id !in entries { return Err(NotFound); }
      if draining { return Err(HostDraining); }
      if entries[id].state.CrashLoop? { return Err(CrashLooping); }
      if entries[id].state !in STARTABLE { return Err(InvalidState); }
      var occupied := OccupiedByOthers(id);
      if occupied >= config.capacity {
        var victim := FindVictim(id);
        if victim.None? { return Err(HostCapacity); }
        VictimIsLeastRecentlyActive(entries, order, id);
        var _ := StopSession(victim.value);
      }
      Spawn(id, spec, now, spawns);
      r := if spawns then Ok(()) else Err(SpawnFailed);
    }

    // Creating the process and starting it.
    method Spawn(id: string, spec: string, now: int, spawns: bool)
      requires id in entries && entries[id].state in STARTABLE
      modifies this`entries
      ensures entries == old(entries)[id := Spawned(old(entries)[id], spec, now, spawns)]
    {
      ghost var before := entries;
      entries := entries[id := entries[id].(spec := Some(spec), hasProcess := true)];
      var moved := Move(id, Starting);
      if spawns {
        entries := entries[id := entries[id].(lastActivityAt := now)];
        moved := Move(id, Idle);
      } else {
        entries := entries[id := entries[id].(hasProcess := false)];
        moved := Move(id, Crashed);
      }
      assert entries[id] == Spawned(before[id], spec, now, spawns);
    }

    method TransitionSession(id: string, to: State, attention: Option<Attention>,
          now: int) returns (r: Result<(), Error>)
      modifies this`entries
      ensures entries == Transition(old(Contents()), id, to, attention, now).0.entries
      ensures (Contents(), r) == Transition(old(Contents()), id, to, attention, now)
    {
      if id !in entries { return Err(NotFound); }
      var moved := MoveWithAttention(id, to, attention, now);
      if !moved { return Err(InvalidState); }
      if draining && to.Idle? && entries[id].attention.NoAttention? {
        var _ := StopSession(id);
      }
      r := Ok(());
    }

    method MoveWithAttention(id: string, to: State, attention: Option<Attention>, now: int) returns (moved: bool)
      requires id in entries
      modifies this`entries
      ensures moved == MayMove(old(entries)[id].state, to)
      ensures var e := old(entries)[id].(attention := attention.GetOr(old(entries)[id].attention));
              entries == old(entries)[id := if moved then e.(state := to, lastActivityAt := now) else e]
    {
      if attention.Some? {
        entries := entries[id := entries[id].(attention := attention.value)];
      }
      moved := Move(id, to);
      if !moved { return; }
      entries := entries[id := entries[id].(lastActivityAt := now)];
    }

    method OnUnexpectedExit(id: string, now: int) returns (r: Result<(), Error>)
      modifies this`entries
      ensures entries == UnexpectedExit(config, old(Contents()), id, now).0.entries
      ensures (Contents(), r) == UnexpectedExit(config, old(Contents()), id, now)
    {
      if id !in entries { return Err(NotFound); }
      if entries[id].state !in ACTIVE { return Err(InvalidState); }
      var stamps := Recent(entries[id].restartTimestamps, now - config.restartWindowMs) + [now];
      ghost var before, e := entries, entries[id];
      entries := entries[id := entries[id].(hasProcess := false, restartTimestamps := stamps)];
      SettleCrash(id, now);
      assert entries == before[id := ExitedEntry(config, e, draining, now)];
      r := Ok(());
    }

    // What follows a crash: the loop detector, the drain, or a later retry.
    method SettleCrash(id: string, now: int)
      requires id in entries && entries[id].state in ACTIVE
      modifies this`entries
      ensures var crashed := old(entries)[id];
              entries == old(entries)[id :=
                if |crashed.restartTimestamps| >= config.restartLimit then crashed.(state := CrashLoop)
                else if draining then crashed.(state := Stopped)
                else crashed.(state := RetryWait, retryAt := Some(now + config.retryDelayMs))]
    {
      var moved := Move(id, Crashed);
      if |entries[id].restartTimestamps| >= config.restartLimit {
        moved := Move(id, CrashLoop);
        return;
      }
      if draining {
        moved := Move(id, Stopped);
        return;
      }
      entries := entries[id := entries[id].(retryAt := Some(now + config.retryDelayMs))];
      moved := Move(id, RetryWait);
    }

    method RetryManually(id: string, now: int, spawns: bool) returns (r: Result<(), Error>)
      requires Known(Contents())
      modifies this`entries
      ensures entries == ManualRetry(config, old(Contents()), id, now, spawns).0.entries
      ensures (Contents(), r) == ManualRetry(config, old(Contents()), id, now, spawns)
    {
      if id !in entries { return Err(NotFound); }
      if entries[id].state !in RETRYABLE || entries[id].spec.None? { return Err(InvalidState); }
      ghost var before, e := entries, entries[id];
      entries := entries[id := entries[id].(restartTimestamps := [])];
      if entries[id].state.CrashLoop? {
        var _ := Move(id, Stopped);
      }
      assert entries == before[id := e.(restartTimestamps := [], state := if e.state.CrashLoop? then Stopped else e.state)];
      r := StartSession(id, entries[id].spec.value, now, spawns);
    }

    method Tick(now: int, spawns: string -> bool)
      requires Known(Contents())
      modifies this`entries
      ensures Contents() == TickFrom(config, old(Contents()), order, now, spawns)
    {
      ghost var before := Contents();
      for i := 0 to |order|
        invariant Contents() == TickFrom(config, before, order[..i], now, spawns)
      {
        TickOneMore(config, before, order, i, now, spawns);
        TickOne(order[i], now, spawns(order[i]));
      }
      assert order[..|order|] == order;
    }

    method TickOne(id: string, now: int, spawns: bool)
      requires Known(Contents()) && id in entries
      modifies this`entries
      ensures Contents() == TickEntry(config, old(Contents()), id, now, spawns)
    {
      if Evictable(entries[id]) && now - entries[id].lastActivityAt >= config.idleTimeoutMs {
        var _ := StopSession(id);
      }
      var e := entries[id];
      if e.state.RetryWait? && e.retryAt.Some? && now >= e.retryAt.value && e.spec.Some? {
        entries := entries[id := e.(retryAt := None)];
        var _ := StartSession(id, e.spec.value, now, spawns);
      }
    }

    method DrainHost()
      requires Known(Contents())
      modifies this`entries, this`draining
      ensures Contents() == Drain(old(Contents()))
    {
      draining := true;
      ghost var before := Contents();
      for i := 0 to |order|
        invariant Contents() == DrainFrom(before, order[..i])
      {
        assert order[..i + 1][..i] == order[..i];
        if Evictable(entries[order[i]]) {
          var _ := StopSession(order[i]);
        }
      }
      assert order[..|order|] == order;
    }
  }

  // What eviction picks: another session, idle and without attention, that no eligible session
  // was active before.
  lemma {:induction false} VictimIsLeastRecentlyActive(entries: map<string, Entry>, ids: seq<string>, except: string)
    requires forall id :: id in ids ==> id in entries
    ensures var v := Victim(entries, ids, except);
            && (v.Some? ==>
                  && v.value in ids && v.value != except && Evictable(entries[v.value])
                  && forall id :: id in ids && id != except && Evictable(entries[id])
                       ==> entries[v.value].lastActivityAt <= entries[id].lastActivityAt)
            && (v.None? ==> forall id :: id in ids && id != except ==> !Evictable(entries[id]))
  {
    if ids != [] {
      VictimIsLeastRecentlyActive(entries, ids[..|ids| - 1], except);
    }
  }
}
