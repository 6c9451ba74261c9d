// What each operation of the supervisor makes of each session, entry by entry; the turn of a session in
// a tick, and the whole tick.
module SupervisorExact {
  import opened Wrappers
  import opened SlidingWindow
  import opened Supervisor
  import opened SupervisorProofs

  // ----- Starting -----

  // An entry whose process runs, from now on; one whose spawn failed; one that was stopped.
  function Up(e: Entry, spec: string, now: int): Entry {
    Entry(Idle, e.attention, true, Some(spec), now, e.restartTimestamps, e.retryAt)
  }

  function Down(e: Entry, spec: string): Entry {
    Entry(Crashed, e.attention, false, Some(spec), e.lastActivityAt, e.restartTimestamps, e.retryAt)
  }

  function Off(e: Entry): Entry {
    Entry(Stopped, e.attention, false, e.spec, e.lastActivityAt, e.restartTimestamps, e.retryAt)
  }

  predicate Rests(e: Entry) {
    e.state.Idle? && e.attention.NoAttention?
  }

  // `v` is idle without attention, and nobody idle without attention was active longer ago.
  ghost predicate LongestIdle(h: Host, v: string) {
    && v in h.entries && Rests(h.entries[v])
    && forall other :: other in h.entries && Rests(h.entries[other]) ==>
         h.entries[v].lastActivityAt <= h.entries[other].lastActivityAt
  }

  ghost predicate SomeoneRests(h: Host) {
    exists other :: other in h.entries && Rests(h.entries[other])
  }

  // From `h` the session is put into entry `e`; when the host is full somebody who rests longest makes room.
  ghost predicate PutIn(c: Config, h: Host, h': Host, id: string, e: Entry)
    requires Known(h)
  {
    && h'.order == h.order && h'.draining == h.draining && id in h.entries
    && if LiveCount(h) < c.capacity then h'.entries == h.entries[id := e]
       else exists v :: v != id && LongestIdle(h, v) && h'.entries == h.entries[v := Off(h.entries[v])][id := e]
  }

  // Every answer of a start, in the order of its checks, and what it leaves.
  lemma StartEffect(c: Config, h: Host, id: string, spec: string, now: int, spawns: bool)
    requires Valid(c, h)
    ensures var (h', r) := Start(c, h, id, spec, now, spawns);
            if id !in h.entries then r == Err(NotFound) && h' == h
            else
              var e := h.entries[id];
              if h.draining then r == Err(HostDraining) && h' == h
              else if e.state.CrashLoop? then r == Err(CrashLooping) && h' == h
              else if !(e.state.Stopped? || e.state.Crashed? || e.state.RetryWait?) then r == Err(InvalidState) && h' == h
              else if LiveCount(h) >= c.capacity && !SomeoneRests(h) then r == Err(HostCapacity) && h' == h
              else if spawns then r == Ok(()) && PutIn(c, h, h', id, Up(e, spec, now))
              else r == Err(SpawnFailed) && PutIn(c, h, h', id, Down(e, spec))
  {
    if Startable(h, id) {
      OccupiedOthers(h.entries, id, h.order);
      VictimIsLeastRecentlyActive(h.entries, h.order, id);
      var victim := Victim(h.entries, h.order, id);
      if LiveCount(h) >= c.capacity && victim.Some? {
        assert LongestIdle(h, victim.value);
      }
    }
  }

  // ----- The turn of a session in a tick -----

  predicate TimedOut(c: Config, e: Entry, now: int) {
    Rests(e) && now - e.lastActivityAt >= c.idleTimeoutMs
  }

  predicate Due(e: Entry, now: int) {
    e.state.RetryWait? && e.spec.Some? && e.retryAt.Some? && e.retryAt.value <= now
  }

  // A session that has rested too long is stopped; one whose retry is due is started, if the host is not
  // draining and has room or can make it, and otherwise no longer waits for a time; any other is left alone.
  ghost predicate Turn(c: Config, h: Host, h': Host, id: string, now: int, spawns: bool)
    requires Known(h)
  {
    && id in h.entries
    && var e := h.entries[id];
       if TimedOut(c, e, now) then h' == Host(h.entries[id := Off(e)], h.order, h.draining)
       else if !Due(e, now) then h' == h
       else
         var waited := e.(retryAt := None);
         if h.draining || (LiveCount(h) >= c.capacity && !SomeoneRests(h))
         then h' == Host(h.entries[id := waited], h.order, h.draining)
         else PutIn(c, h, h', id, if spawns then Up(waited, e.spec.value, now) else Down(waited, e.spec.value))
  }

  lemma ClearedHost(c: Config, h: Host, id: string, e: Entry)
    requires Valid(c, h) && id in h.entries && !h.entries[id].hasProcess && e == h.entries[id].(retryAt := None)
    ensures var h1 := h.(entries := h.entries[id := e]);
            && Valid(c, h1) && LiveCount(h1) == LiveCount(h)
            && (!Rests(e) ==>
                  && (SomeoneRests(h1) <==> SomeoneRests(h))
                  && forall v :: v != id ==> (LongestIdle(h1, v) <==> LongestIdle(h, v)))
  {
    var h1 := h.(entries := h.entries[id := e]);
    UpdateExact(h, id, e);
    assert forall other :: other in h1.entries && other != id ==> h1.entries[other] == h.entries[other];
    if !Rests(e) {
      forall v | v != id ensures LongestIdle(h1, v) <==> LongestIdle(h, v) {
      }
    }
  }

  lemma DueTurn(c: Config, h: Host, id: string, now: int, spawns: bool)
    requires Valid(c, h) && id in h.entries && Due(h.entries[id], now)
    ensures Turn(c, h, TickEntry(c, h, id, now, spawns), id, now, spawns)
  {
    var e := h.entries[id];
    var waited := e.(retryAt := None);
    var h1 := h.(entries := h.entries[id := waited]);
    ClearedHost(c, h, id, waited);
    StartEffect(c, h1, id, e.spec.value, now, spawns);
    if !h.draining && (LiveCount(h) < c.capacity || SomeoneRests(h)) {
      PutInAfterClearing(c, h, TickEntry(c, h, id, now, spawns), id, waited,
                         if spawns then Up(waited, e.spec.value, now) else Down(waited, e.spec.value));
    }
  }

  lemma PutInAfterClearing(c: Config, h: Host, h': Host, id: string, waited: Entry, put: Entry)
    requires Valid(c, h) && id in h.entries && !h.entries[id].hasProcess && waited == h.entries[id].(retryAt := None)
    requires !Rests(waited) && PutIn(c, h.(entries := h.entries[id := waited]), h', id, put)
    ensures PutIn(c, h, h', id, put)
  {
    var h1 := h.(entries := h.entries[id := waited]);
    ClearedHost(c, h, id, waited);
    if LiveCount(h) >= c.capacity {
      var v :| v != id && LongestIdle(h1, v) && h'.entries == h1.entries[v := Off(h1.entries[v])][id := put];
      Overwritten(h.entries, id, waited, v, Off(h.entries[v]), put);
    } else {
      Overwritten(h.entries, id, waited, id, waited, put);
    }
  }

  lemma Overwritten(m: map<string, Entry>, id: string, first: Entry, v: string, e: Entry, last: Entry)
    ensures m[id := first][v := e][id := last] == m[v := e][id := last] && m[id := first][id := last] == m[id := last]
  {
  }

  lemma TurnExactly(c: Config, h: Host, id: string, now: int, spawns: bool)
    requires Valid(c, h) && id in h.entries
    ensures Turn(c, h, TickEntry(c, h, id, now, spawns), id, now, spawns)
  {
    if Due(h.entries[id], now) {
      DueTurn(c, h, id, now, spawns);
    } else if TimedOut(c, h.entries[id], now) {
      StopExact(h, id);
    }
  }

  // ----- A whole tick -----

  // The hosts between the turns.
  ghost predicate IsTick(c: Config, hosts: seq<Host>, ids: seq<string>, now: int, spawns: string -> bool) {
    |hosts| == |ids| + 1 && Valid(c, hosts[0]) && forall k :: 0 <= k < |ids| ==> IsTurn(c, hosts, ids, now, spawns, k)
  }

  ghost predicate IsTurn(c: Config, hosts: seq<Host>, ids: seq<string>, now: int, spawns: string -> bool, k: nat)
    requires |hosts| == |ids| + 1 && k < |ids|
  {
    Valid(c, hosts[k]) && Valid(c, hosts[k + 1]) && Turn(c, hosts[k], hosts[k + 1], ids[k], now, spawns(ids[k]))
  }

  lemma LastIsValid(c: Config, hosts: seq<Host>, ids: seq<string>, now: int, spawns: string -> bool)
    requires IsTick(c, hosts, ids, now, spawns)
    ensures Valid(c, hosts[|ids|])
  {
    if ids != [] {
      assert IsTurn(c, hosts, ids, now, spawns, |ids| - 1);
    }
  }

  lemma OneMoreTurn(c: Config, hosts: seq<Host>, h': Host, ids: seq<string>, now: int, spawns: string -> bool)
    requires ids != [] && IsTick(c, hosts, ids[..|ids| - 1], now, spawns) && Valid(c, h') && Known(hosts[|ids| - 1])
    requires Turn(c, hosts[|ids| - 1], h', ids[|ids| - 1], now, spawns(ids[|ids| - 1]))
    ensures IsTick(c, hosts + [h'], ids, now, spawns)
  {
    var n, all := |ids| - 1, hosts + [h'];
    LastIsValid(c, hosts, ids[..n], now, spawns);
    forall k | 0 <= k < |ids| ensures IsTurn(c, all, ids, now, spawns, k) {
      if k < n {
        assert IsTurn(c, hosts, ids[..n], now, spawns, k) && ids[..n][k] == ids[k];
      }
    }
  }

  lemma {:induction false} TickIsTurns(c: Config, h: Host, ids: seq<string>, now: int, spawns: string -> bool)
    returns (hosts: seq<Host>)
    requires Valid(c, h) && forall id :: id in ids ==> id in h.entries
    ensures IsTick(c, hosts, ids, now, spawns) && hosts[0] == h && hosts[|ids|] == TickFrom(c, h, ids, now, spawns)
  {
    if ids == [] {
      hosts := [h];
    } else {
      var n := |ids| - 1;
      hosts := TickIsTurns(c, h, ids[..n], now, spawns);
      LastIsValid(c, hosts, ids[..n], now, spawns);
      TickKeeps(c, h, ids[..n], now, spawns);
      TurnExactly(c, hosts[n], ids[n], now, spawns(ids[n]));
      TickEntryKeeps(c, hosts[n], ids[n], now, spawns(ids[n]));
      var next := TickEntry(c, hosts[n], ids[n], now, spawns(ids[n]));
      OneMoreTurn(c, hosts, next, ids, now, spawns);
      hosts := hosts + [next];
    }
  }

  // What others' turns make of a session: nothing, or it rests and makes room.
  predicate Spared(e: Entry, e': Entry) {
    e' == e || (Rests(e) && e' == Off(e))
  }

  // What a tick makes of a session once its own turn has come.
  predicate Ticked(c: Config, e: Entry, e': Entry, now: int, spawns: bool, draining: bool) {
    if TimedOut(c, e, now) then e' == Off(e)
    else if !Due(e, now) then Spared(e, e')
    else
      var waited := e.(retryAt := None);
      || e' == waited
      || (!draining && if spawns then Spared(Up(waited, e.spec.value, now), e') else e' == Down(waited, e.spec.value))
  }

  lemma OthersTurn(c: Config, h: Host, h': Host, other: string, id: string, now: int, spawns: bool)
    requires Known(h) && Turn(c, h, h', other, now, spawns) && id in h.entries && id != other
    ensures h'.draining == h.draining && id in h'.entries && Spared(h.entries[id], h'.entries[id])
  {
  }

  lemma OwnTurn(c: Config, h: Host, h': Host, id: string, e: Entry, now: int, spawns: bool)
    requires Known(h) && Turn(c, h, h', id, now, spawns) && Spared(e, h.entries[id])
    ensures h'.draining == h.draining && id in h'.entries && Ticked(c, e, h'.entries[id], now, spawns, h.draining)
  {
  }

  lemma TurnAt(c: Config, hosts: seq<Host>, ids: seq<string>, now: int, spawns: string -> bool, k: nat, id: string)
    requires IsTick(c, hosts, ids, now, spawns) && SupervisorProofs.Distinct(ids) && k < |ids|
    ensures Valid(c, hosts[k]) && Turn(c, hosts[k], hosts[k + 1], ids[k], now, spawns(ids[k]))
    ensures if id == ids[k] then id !in ids[..k] && id in ids[..k + 1] else (id in ids[..k + 1] <==> id in ids[..k])
  {
    assert IsTurn(c, hosts, ids, now, spawns, k);
    assert ids[..k + 1] == ids[..k] + [ids[k]];
  }

  predicate Stands(c: Config, e: Entry, e': Entry, now: int, spawns: bool, draining: bool, visited: bool) {
    if visited then Ticked(c, e, e', now, spawns, draining) else Spared(e, e')
  }

  lemma TurnStep(c: Config, h: Host, h': Host, turn: string, id: string, e: Entry, now: int, spawnsTurn: bool, spawns: bool,
                 visited: bool)
    requires Known(h) && Turn(c, h, h', turn, now, spawnsTurn) && id in h.entries
    requires Stands(c, e, h.entries[id], now, spawns, h.draining, visited)
    requires id == turn ==> !visited && spawnsTurn == spawns
    ensures h'.draining == h.draining && id in h'.entries
    ensures Stands(c, e, h'.entries[id], now, spawns, h.draining, visited || id == turn)
  {
    if id == turn {
      OwnTurn(c, h, h', id, e, now, spawns);
    } else {
      OthersTurn(c, h, h', turn, id, now, spawnsTurn);
    }
  }

  lemma {:induction false} SoFar(c: Config, hosts: seq<Host>, ids: seq<string>, now: int, spawns: string -> bool, id: string,
        k: nat)
    requires IsTick(c, hosts, ids, now, spawns) && SupervisorProofs.Distinct(ids) && k <= |ids| && id in hosts[0].entries
    ensures hosts[k].draining == hosts[0].draining && id in hosts[k].entries
    ensures Stands(c, hosts[0].entries[id], hosts[k].entries[id], now, spawns(id), hosts[0].draining, id in ids[..k])
  {
    if k > 0 {
      SoFar(c, hosts, ids, now, spawns, id, k - 1);
      TurnAt(c, hosts, ids, now, spawns, k - 1, id);
      TurnStep(c, hosts[k - 1], hosts[k], ids[k - 1], id, hosts[0].entries[id], now, spawns(ids[k - 1]), spawns(id),
               id in ids[..k - 1]);
    }
  }

  // A whole tick, for each session: one that has rested too long is stopped; one whose retry is due runs
  // from now on, or is crashed if it could not be spawned, or waits no more if it was refused; one that
  // rests, or that was just started and rests, may have made room; every other is as it was.
  lemma TickExactly(c: Config, h: Host, id: string, now: int, spawns: string -> bool)
    requires Valid(c, h) && id in h.entries
    ensures var h' := TickFrom(c, h, h.order, now, spawns);
            && h'.order == h.order && h'.draining == h.draining && h'.entries.Keys == h.entries.Keys
            && Ticked(c, h.entries[id], h'.entries[id], now, spawns(id), h.draining)
  {
    var hosts := TickIsTurns(c, h, h.order, now, spawns);
    TickKeeps(c, h, h.order, now, spawns);
    assert h.order[..|h.order|] == h.order;
    SoFar(c, hosts, h.order, now, spawns, id, |h.order|);
  }

  // ----- A host with room for everybody -----

  lemma {:induction false} OccupiedBelow(entries: map<string, Entry>, ids: seq<string>, id: string)
    requires forall k :: k in ids ==> k in entries
    ensures Occupied(entries, ids, None) <= |ids|
    ensures id in ids && !Occupies(entries[id]) ==> Occupied(entries, ids, None) < |ids|
  {
    if ids != [] {
      OccupiedBelow(entries, ids[..|ids| - 1], id);
    }
  }

  // With room for everybody nobody has to make any, and no start is refused.
  predicate Roomy(c: Config, e: Entry, e': Entry, now: int, spawns: bool) {
    if TimedOut(c, e, now) then e' == Off(e)
    else if !Due(e, now) then e' == e
    else
      var waited := e.(retryAt := None);
      e' == if spawns then Up(waited, e.spec.value, now) else Down(waited, e.spec.value)
  }

  lemma RoomyTurn(c: Config, h: Host, h': Host, turn: string, id: string, now: int, spawns: bool)
    requires Valid(c, h) && Turn(c, h, h', turn, now, spawns) && id in h.entries && !h.draining && |h.order| <= c.capacity
    ensures h'.order == h.order && h'.draining == h.draining && id in h'.entries
    ensures if id == turn then Roomy(c, h.entries[id], h'.entries[id], now, spawns) else h'.entries[id] == h.entries[id]
  {
    OccupiedBelow(h.entries, h.order, turn);
  }

  lemma {:induction false} RoomySoFar(c: Config, hosts: seq<Host>, ids: seq<string>, now: int, spawns: string -> bool,
        id: string, k: nat)
    requires IsTick(c, hosts, ids, now, spawns) && SupervisorProofs.Distinct(ids) && k <= |ids| && id in hosts[0].entries
    requires !hosts[0].draining && |hosts[0].order| <= c.capacity
    ensures hosts[k].draining == hosts[0].draining && hosts[k].order == hosts[0].order && id in hosts[k].entries
    ensures if id in ids[..k] then Roomy(c, hosts[0].entries[id], hosts[k].entries[id], now, spawns(id))
            else hosts[k].entries[id] == hosts[0].entries[id]
  {
    if k > 0 {
      RoomySoFar(c, hosts, ids, now, spawns, id, k - 1);
      TurnAt(c, hosts, ids, now, spawns, k - 1, id);
      RoomyTurn(c, hosts[k - 1], hosts[k], ids[k - 1], id, now, spawns(ids[k - 1]));
    }
  }

  // On a host with room for every session a tick starts every session whose retry is due, stops every one
  // that has rested too long, and touches no other.
  lemma RoomyTick(c: Config, h: Host, id: string, now: int, spawns: string -> bool)
    requires Valid(c, h) && id in h.entries && !h.draining && |h.order| <= c.capacity
    ensures var h' := TickFrom(c, h, h.order, now, spawns);
            id in h'.entries && Roomy(c, h.entries[id], h'.entries[id], now, spawns(id))
  {
    var hosts := TickIsTurns(c, h, h.order, now, spawns);
    assert h.order[..|h.order|] == h.order;
    RoomySoFar(c, hosts, h.order, now, spawns, id, |h.order|);
  }

  // ----- The other operations -----

  // A crash of a session with fewer crashes in its window than the limit: unless the host is draining it is
  // up again with the first tick that comes no earlier than the retry delay, and not before.
  lemma RetryComesDue(c: Config, h: Host, id: string, crash: int, tick: int, spawns: string -> bool)
    requires Valid(c, h) && id in h.entries && h.entries[id].state in ACTIVE && h.entries[id].spec.Some? && !h.draining
    requires |h.order| <= c.capacity
    requires |Recorded(h.entries[id].restartTimestamps, crash, c.restartWindowMs)| < c.restartLimit
    ensures var e := h.entries[id];
            var crashed := UnexpectedExit(c, h, id, crash);
            var later := TickFrom(c, crashed.0, crashed.0.order, tick, spawns);
            && crashed.1.Ok? && id in crashed.0.entries && id in later.entries
            && crashed.0.entries[id] == Entry(RetryWait, e.attention, false, e.spec, e.lastActivityAt,
                 Recorded(e.restartTimestamps, crash, c.restartWindowMs), Some(crash + c.retryDelayMs))
            && (tick < crash + c.retryDelayMs ==> later.entries[id] == crashed.0.entries[id])
            && (tick >= crash + c.retryDelayMs && spawns(id) ==>
                  later.entries[id].state.Idle? && later.entries[id].hasProcess && later.entries[id].lastActivityAt == tick)
  {
    ExitKeeps(c, h, id, crash);
    RoomyTick(c, UnexpectedExit(c, h, id, crash).0, id, tick, spawns);
  }

  // A crash, whatever comes of it.
  lemma ExitEffect(c: Config, h: Host, id: string, now: int)
    ensures var (h', r) := UnexpectedExit(c, h, id, now);
            if id !in h.entries then r == Err(NotFound) && h' == h
            else if h.entries[id].state !in {Starting, Idle, Running, WaitingForInput, RetryWait, Compacting, Stopping}
            then r == Err(InvalidState) && h' == h
            else
              var e, stamps := h.entries[id], Recorded(h.entries[id].restartTimestamps, now, c.restartWindowMs);
              && r == Ok(()) && h' == Host(h.entries[id := h'.entries[id]], h.order, h.draining)
              && var e' := h'.entries[id];
              && !e'.hasProcess && e'.restartTimestamps == stamps
              && e'.attention == e.attention && e'.spec == e.spec && e'.lastActivityAt == e.lastActivityAt
              && (e'.state.CrashLoop? <==> |stamps| >= c.restartLimit)
              && (e'.state.Stopped? <==> |stamps| < c.restartLimit && h.draining)
              && (e'.state.RetryWait? <==> |stamps| < c.restartLimit && !h.draining)
              && e'.retryAt == (if e'.state.RetryWait? then Some(now + c.retryDelayMs) else e.retryAt)
  {
  }

  // A move and a change of attention.
  lemma TransitionEffect(c: Config, h: Host, id: string, to: State, attention: Option<Attention>, now: int)
    requires Valid(c, h)
    ensures var (h', r) := Transition(h, id, to, attention, now);
            if id !in h.entries then r == Err(NotFound) && h' == h
            else
              var e := h.entries[id];
              var wanted := if attention.Some? then attention.value else e.attention;
              var moved := Entry(to, wanted, e.hasProcess, e.spec, now, e.restartTimestamps, e.retryAt);
              && h'.order == h.order && h'.draining == h.draining
              && (r.Ok? <==> MayMove(e.state, to)) && (r.Err? ==> r == Err(InvalidState))
              && h'.entries == h.entries[id :=
                   if r.Err? then e.(attention := wanted)
                   else if h.draining && to.Idle? && wanted.NoAttention? then Off(moved) else moved]
  {
  }

  lemma AttentionEffect(h: Host, id: string, attention: Attention, now: int)
    ensures var (h', r) := SetAttention(h, id, attention, now);
            if id !in h.entries then r == Err(NotFound) && h' == h
            else && r == Ok(()) && h'.order == h.order && h'.draining == h.draining
                 && h'.entries == h.entries[id := h'.entries[id]]
                 && h'.entries[id].attention == attention && h'.entries[id].lastActivityAt == now
                 && h'.entries[id] == h.entries[id].(attention := h'.entries[id].attention, lastActivityAt := now)
  {
  }

  // A manual retry forgets the crashes, leaves the crash loop, and starts as any start does.
  lemma RetryEffect(c: Config, h: Host, id: string, now: int, spawns: bool)
    requires Valid(c, h) && id in h.entries
    ensures var (h', r) := ManualRetry(c, h, id, now, spawns);
            var e := h.entries[id];
            if !(e.state.CrashLoop? || e.state.Crashed? || e.state.RetryWait?) || e.spec.None?
            then r == Err(InvalidState) && h' == h
            else
              var cleared := Entry(if e.state.CrashLoop? then Stopped else e.state, e.attention, e.hasProcess, e.spec,
                                   e.lastActivityAt, [], e.retryAt);
              var h1 := Host(h.entries[id := cleared], h.order, h.draining);
              && Valid(c, h1)
              && if h.draining then r == Err(HostDraining) && h' == h1
                 else if LiveCount(h1) >= c.capacity && !SomeoneRests(h1) then r == Err(HostCapacity) && h' == h1
                 else if spawns then r == Ok(()) && PutIn(c, h1, h', id, Up(cleared, e.spec.value, now))
                 else r == Err(SpawnFailed) && PutIn(c, h1, h', id, Down(cleared, e.spec.value))
  {
    var e := h.entries[id];
    if (e.state.CrashLoop? || e.state.Crashed? || e.state.RetryWait?) && e.spec.Some? {
      var cleared := e.(restartTimestamps := [], state := if e.state.CrashLoop? then Stopped else e.state);
      UpdateExact(h, id, cleared);
      StartEffect(c, h.(entries := h.entries[id := cleared]), id, e.spec.value, now, spawns);
    }
  }

  lemma StopEffect(c: Config, h: Host, id: string)
    requires Valid(c, h)
    ensures var (h', r) := Stop(h, id);
            if id !in h.entries then r == Err(NotFound) && h' == h
            else r == Ok(()) && h' == Host(h.entries[id := Off(h.entries[id])], h.order, h.draining)
  {
  }

  // A new session comes last, in the state it is given, with nothing to its name.
  lemma RegisterEffect(h: Host, id: string, state: State, now: int)
    ensures var h' := Register(h, id, state, now);
            && h'.draining == h.draining
            && (id in h.entries ==> h' == h)
            && (id !in h.entries ==>
                  && h'.order == h.order + [id] && h'.entries.Keys == h.entries.Keys + {id}
                  && h'.entries[id].state == state && h'.entries[id].attention.NoAttention? && !h'.entries[id].hasProcess
                  && h'.entries[id].spec.None? && h'.entries[id].lastActivityAt == now
                  && h'.entries[id].restartTimestamps == [] && h'.entries[id].retryAt.None?
                  && forall other :: other in h.entries ==> h'.entries[other] == h.entries[other])
  {
  }

  // A reboot leaves no process and no waiting, and keeps what is not to be started again.
  lemma RebootEffect(h: Host, now: int)
    ensures var h' := Reboot(h, now);
            && h'.order == h.order && !h'.draining && h'.entries.Keys == h.entries.Keys
            && forall id :: id in h.entries ==>
                 var e, e' := h.entries[id], h'.entries[id];
                 && !e'.hasProcess && e'.retryAt.None? && e'.lastActivityAt == now
                 && e'.attention == e.attention && e'.spec == e.spec && e'.restartTimestamps == e.restartTimestamps
                 && (if e.state.CrashLoop? || e.state.Incompatible? then e'.state == e.state else e'.state.Stopped?)
  {
  }

  // A drain stops every session that rests and no other, and starts refusing.
  lemma DrainEffect(c: Config, h: Host)
    requires Valid(c, h)
    ensures Drain(h).order == h.order && Drain(h).draining && Drain(h).entries.Keys == h.entries.Keys
    ensures forall id :: id in h.entries ==>
              Drain(h).entries[id] == if Rests(h.entries[id]) then Off(h.entries[id]) else h.entries[id]
  {
    DrainKeeps(c, h.(draining := true), h.order);
  }

  function Holders(entries: map<string, Entry>, ids: seq<string>): set<string> {
    set id | id in ids && id in entries && entries[id].hasProcess
  }

  lemma OneMoreHolder(entries: map<string, Entry>, ids: seq<string>, id: string)
    requires id !in ids && id in entries
    ensures |Holders(entries, ids + [id])| == |Holders(entries, ids)| + if entries[id].hasProcess then 1 else 0
  {
    var before, after := Holders(entries, ids), Holders(entries, ids + [id]);
    assert after == if entries[id].hasProcess then before + {id} else before;
  }

  // In a valid host the sessions that occupy it are those that hold a process.
  lemma {:induction false} OccupiedIsCount(entries: map<string, Entry>, ids: seq<string>)
    requires (forall id :: id in ids ==> id in entries && SupervisorProofs.Resting(entries[id])) && SupervisorProofs.Distinct(ids)
    ensures Occupied(entries, ids, None) == |Holders(entries, ids)|
  {
    if ids != [] {
      var n := |ids| - 1;
      OccupiedIsCount(entries, ids[..n]);
      OneMoreHolder(entries, ids[..n], ids[n]);
      assert ids == ids[..n] + [ids[n]];
    }
  }

  // Over every run no more sessions hold a process than the host has room for.
  lemma ProcessesWithinCapacity(c: Config, ops: seq<Op>)
    requires forall op :: op in ops ==> Proper(op)
    ensures |Holders(Run(c, ops).entries, Run(c, ops).order)| <= c.capacity
    ensures forall id :: id in Run(c, ops).entries <==> id in Run(c, ops).order
  {
    CapacityHolds(c, ops);
    OccupiedIsCount(Run(c, ops).entries, Run(c, ops).order);
  }

  // From which states a session may come into each state, other than by staying in it.
  lemma MovesExactly(from: State, to: State)
    ensures MayMove(from, to)
       <==> from == to
            || match to
               case Starting => from in {Stopped, RetryWait, Crashed, CrashLoop}
               case Idle => from in {Starting, Running, WaitingForInput, Compacting}
               case Running => from in {Idle, WaitingForInput, Compacting}
               case WaitingForInput => from in {Idle, Running}
               case Compacting => from in {Idle, Running}
               case RetryWait => from == Crashed
               case Stopping => from in {Starting, Idle, Running, WaitingForInput, RetryWait, Compacting}
               case Crashed => from in {Starting, Idle, Running, WaitingForInput, RetryWait, Compacting, Stopping}
               case CrashLoop => from in {RetryWait, Crashed}
               case Stopped => from in {Stopping, Crashed, CrashLoop, Incompatible}
               case Incompatible => from in {Stopped, Starting}
  {
  }
}
