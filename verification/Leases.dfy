// Controller leases: fenced, renewable, and reclaimable for a while after a disconnect.
module Leases {
  import opened Wrappers

  const LEASE_MS := 45_000
  const RECLAIM_MS := 60_000

  datatype Reason = ExplicitTakeover | SameInstallationReclaim | Expired

  datatype Lease = Lease(
    scope: string,
    installation: string,
    connection: string,
    expiresAt: int,
    reclaimableUntil: Option<int>,
    disconnectedAt: Option<int>,
    takeoverReason: Option<Reason>,
    revokedAt: Option<int>)

  datatype Action = Acquire | Takeover | Release

  datatype Mutation = Mutation(action: Action, scope: string, installation: string, connection: string, now: int)

  datatype LeaseError = Unauthorized | ControllerActive | StaleController | IdReused

  // Rows by lease id.
  type Table = map<string, Lease>

  // ----- Queries -----

  predicate IsCurrent(t: Table, scope: string, id: string) {
    id in t && t[id].scope == scope && t[id].revokedAt.None?
  }

  // The unique index on (scope_key) WHERE revoked_at IS NULL.
  ghost predicate OneActive(t: Table) {
    forall a, b, scope :: IsCurrent(t, scope, a) && IsCurrent(t, scope, b) ==> a == b
  }

  // SELECT ... WHERE scope_key=? AND revoked_at IS NULL LIMIT 1.
  ghost function Current(t: Table, scope: string): Option<string> {
    if exists id :: IsCurrent(t, scope, id) then
      var id :| IsCurrent(t, scope, id);
      Some(id)
    else None
  }

  predicate MayReclaim(lease: Lease, installation: string, now: int) {
    lease.installation == installation && lease.reclaimableUntil.Some? && lease.reclaimableUntil.value >= now
  }

  // ControllerLeaseService.assertController does not throw.
  predicate Controls(t: Table, scope: string, id: string, connection: string, now: int) {
    IsCurrent(t, scope, id) && t[id].connection == connection && t[id].expiresAt > now
  }

  // ----- Steps -----

  function Revoke(t: Table, id: string, now: int, reason: Option<Reason>): Table
    requires id in t
  {
    t[id := t[id].(revokedAt := Some(now), takeoverReason := reason)]
  }

  function Granted(m: Mutation): Lease {
    Lease(m.scope, m.installation, m.connection, m.now + LEASE_MS, None, None,
          if m.action.Takeover? then Some(ExplicitTakeover) else None, None)
  }

  function ReasonFor(m: Mutation, lease: Lease): Reason {
    if m.action.Takeover? then ExplicitTakeover
    else if MayReclaim(lease, m.installation, m.now) then SameInstallationReclaim
    else Expired
  }

  // `newId` is the identifier drawn for the lease that the mutation may insert.
  ghost function Mutate(t: Table, m: Mutation, newId: string): Result<Table, LeaseError> {
    var current := Current(t, m.scope);
    if m.action.Release? then
      if current.None? || t[current.value].installation != m.installation || t[current.value].connection != m.connection
      then Err(Unauthorized)
      else Ok(Revoke(t, current.value, m.now, t[current.value].takeoverReason))
    else if current.Some? && t[current.value].expiresAt > m.now && !m.action.Takeover?
            && !MayReclaim(t[current.value], m.installation, m.now) then Err(ControllerActive)
    else if newId in t then Err(IdReused)
    else
      var revoked := if current.None? then t
                     else Revoke(t, current.value, m.now, Some(ReasonFor(m, t[current.value])));
      Ok(revoked[newId := Granted(m)])
  }

  function Renewed(t: Table, scope: string, id: string, connection: string, now: int): Result<Table, LeaseError> {
    if Controls(t, scope, id, connection, now) then Ok(t[id := t[id].(expiresAt := now + LEASE_MS)])
    else Err(StaleController)
  }

  // `scope` is absent when the connection closes and every lease it holds is marked.
  function Disconnected(t: Table, scope: Option<string>, connection: string, now: int): Table {
    map id | id in t ::
      if (scope.None? || t[id].scope == scope.value) && t[id].connection == connection && t[id].revokedAt.None?
      then t[id].(disconnectedAt := Some(now), reclaimableUntil := Some(now + RECLAIM_MS))
      else t[id]
  }

  class LeaseTable {
    var leases: Table

    constructor ()
      ensures leases == map[] && OneActive(leases)
    {
      leases := map[];
    }

    method Find(scope: string) returns (current: Option<string>)
      requires OneActive(leases)
      ensures current == Current(leases, scope)
    {
      if exists id | id in leases :: IsCurrent(leases, scope, id) {
        var id :| id in leases && IsCurrent(leases, scope, id);
        current := Some(id);
      } else {
        current := None;
      }
    }

    method ApplyMutation(m: Mutation, newId: string) returns (r: Result<(), LeaseError>)
      requires OneActive(leases)
      modifies this
      ensures OneActive(leases)
      ensures var next := Mutate(old(leases), m, newId);
              if next.Ok? then r == Ok(()) && leases == next.value
              else r == Err(next.error) && leases == old(leases)
    {
      CurrentIsCurrent(leases, m.scope);
      var current := Find(m.scope);
      if m.action.Release? {
        if current.None? || leases[current.value].installation != m.installation
           || leases[current.value].connection != m.connection {
          return Err(Unauthorized);
        }
        MutateKeepsOneActive(leases, m, newId);
        leases := Revoke(leases, current.value, m.now, leases[current.value].takeoverReason);
        return Ok(());
      }
      var active := current.Some? && leases[current.value].expiresAt > m.now;
      var reclaim := current.Some? && MayReclaim(leases[current.value], m.installation, m.now);
      if active && !m.action.Takeover? && !reclaim { return Err(ControllerActive); }
      if newId in leases { return Err(IdReused); }
      MutateKeepsOneActive(leases, m, newId);
      if current.Some? {
        leases := Revoke(leases, current.value, m.now, Some(ReasonFor(m, leases[current.value])));
      }
      leases := leases[newId := Granted(m)];
      r := Ok(());
    }

    method Renew(scope: string, id: string, connection: string, now: int) returns (r: Result<(), LeaseError>)
      requires OneActive(leases)
      modifies this
      ensures OneActive(leases)
      ensures var next := Renewed(old(leases), scope, id, connection, now);
              if next.Ok? then r == Ok(()) && leases == next.value
              else r == Err(next.error) && leases == old(leases)
    {
      CurrentIsCurrent(leases, scope);
      var current := Find(scope);
      if current.None? || current.value != id || leases[id].connection != connection || leases[id].expiresAt <= now {
        return Err(StaleController);
      }
      ghost var before := leases;
      leases := leases[id := leases[id].(expiresAt := now + LEASE_MS)];
      assert forall other, s :: IsCurrent(leases, s, other) ==> IsCurrent(before, s, other);
      r := Ok(());
    }

    method Disconnect(scope: Option<string>, connection: string, now: int)
      requires OneActive(leases)
      modifies this
      ensures OneActive(leases) && leases == Disconnected(old(leases), scope, connection, now)
    {
      ghost var before := leases;
      leases := Disconnected(leases, scope, connection, now);
      assert forall other, s :: IsCurrent(leases, s, other) ==> IsCurrent(before, s, other);
    }

    method ReleaseLease(scope: string, id: string, installation: string, connection: string, now: int)
      returns (r: Result<(), LeaseError>)
      requires OneActive(leases)
      modifies this
      ensures OneActive(leases)
      ensures r.Ok? <==> IsCurrent(old(leases), scope, id) && old(leases)[id].installation == installation
                         && old(leases)[id].connection == connection
      ensures leases == if r.Ok? then Revoke(old(leases), id, now, old(leases)[id].takeoverReason) else old(leases)
    {
      CurrentIsCurrent(leases, scope);
      var current := Find(scope);
      if current.None? || current.value != id || leases[id].installation != installation
         || leases[id].connection != connection {
        return Err(Unauthorized);
      }
      r := ApplyMutation(Mutation(Release, scope, installation, connection, now), id);
    }

    method AssertController(scope: string, id: string, connection: string, now: int) returns (ok: bool)
      requires OneActive(leases)
      ensures ok == Controls(leases, scope, id, connection, now)
    {
      CurrentIsCurrent(leases, scope);
      var current := Find(scope);
      ok := current.Some? && current.value == id && leases[id].connection == connection && leases[id].expiresAt > now;
    }
  }

  // ----- One step -----

  // With the unique index in force the query's answer is the one unrevoked row.
  lemma CurrentIsCurrent(t: Table, scope: string)
    requires OneActive(t)
    ensures forall id :: Current(t, scope) == Some(id) <==> IsCurrent(t, scope, id)
  {
  }

  lemma MutateKeepsOneActive(t: Table, m: Mutation, newId: string)
    requires OneActive(t) && Mutate(t, m, newId).Ok?
    ensures OneActive(Mutate(t, m, newId).value)
  {
    CurrentIsCurrent(t, m.scope);
    var t' := Mutate(t, m, newId).value;
    forall id, scope | IsCurrent(t', scope, id) && (m.action.Release? || id != newId)
      ensures IsCurrent(t, scope, id) && scope != m.scope
    {
      assert IsCurrent(t, scope, id);
    }
  }

  // ----- Runs -----

  datatype Op =
    | Change(m: Mutation, newId: string)
    | Renew(scope: string, id: string, connection: string, now: int)
    | Disconnect(only: Option<string>, connection: string, now: int)

  ghost function Apply(t: Table, op: Op): Table {
    match op
    case Change(m, newId) => if Mutate(t, m, newId).Ok? then Mutate(t, m, newId).value else t
    case Renew(scope, id, connection, now) =>
      if Renewed(t, scope, id, connection, now).Ok? then Renewed(t, scope, id, connection, now).value else t
    case Disconnect(scope, connection, now) => Disconnected(t, scope, connection, now)
  }

  ghost function Run(t: Table, ops: seq<Op>): Table {
    if ops == [] then t else Apply(Run(t, ops[..|ops| - 1]), ops[|ops| - 1])
  }

  function Time(op: Op): int {
    match op
    case Change(m, _) => m.now
    case Renew(_, _, _, now) => now
    case Disconnect(_, _, now) => now
  }

  lemma ApplyKeepsOneActive(t: Table, op: Op)
    requires OneActive(t)
    ensures OneActive(Apply(t, op))
  {
    if op.Change? && Mutate(t, op.m, op.newId).Ok? {
      MutateKeepsOneActive(t, op.m, op.newId);
    } else {
      assert forall id, scope :: IsCurrent(Apply(t, op), scope, id) ==> IsCurrent(t, scope, id);
    }
  }

  // At every reachable state each scope has at most one unrevoked lease, so at most one
  // (lease, connection) pair controls it.
  lemma {:induction false} OneController(ops: seq<Op>, scope: string, a: string, connA: string, b: string,
        connB: string, now: int)
    requires Controls(Run(map[], ops), scope, a, connA, now) && Controls(Run(map[], ops), scope, b, connB, now)
    ensures OneActive(Run(map[], ops)) && a == b && connA == connB
  {
    RunKeepsOneActive(map[], ops);
  }

  lemma {:induction false} RunKeepsOneActive(t: Table, ops: seq<Op>)
    requires OneActive(t)
    ensures OneActive(Run(t, ops))
  {
    if ops != [] {
      RunKeepsOneActive(t, ops[..|ops| - 1]);
      ApplyKeepsOneActive(Run(t, ops[..|ops| - 1]), ops[|ops| - 1]);
    }
  }

  // Revocation is final: the row never changes again, so the lease never controls or renews again.
  lemma {:induction false} RevokedForever(t: Table, ops: seq<Op>, id: string)
    requires OneActive(t) && id in t && t[id].revokedAt.Some?
    ensures id in Run(t, ops) && Run(t, ops)[id] == t[id]
    ensures forall scope, connection, now :: !Controls(Run(t, ops), scope, id, connection, now)
    ensures forall scope, connection, now :: Renewed(Run(t, ops), scope, id, connection, now).Err?
  {
    if ops != [] {
      var before := Run(t, ops[..|ops| - 1]);
      RevokedForever(t, ops[..|ops| - 1], id);
      RunKeepsOneActive(t, ops[..|ops| - 1]);
      var op := ops[|ops| - 1];
      if op.Change? {
        CurrentIsCurrent(before, op.m.scope);
      }
    }
  }

  // A granted acquisition fences every earlier holder of the scope, for ever.
  lemma GrantFencesOthers(t: Table, m: Mutation, newId: string, later: seq<Op>, earlier: string)
    requires OneActive(t) && !m.action.Release? && Mutate(t, m, newId).Ok? && IsCurrent(t, m.scope, earlier)
    ensures var t' := Run(Mutate(t, m, newId).value, later);
            && (forall connection, now :: !Controls(t', m.scope, earlier, connection, now))
            && (forall connection, now :: Renewed(t', m.scope, earlier, connection, now).Err?)
  {
    CurrentIsCurrent(t, m.scope);
    MutateKeepsOneActive(t, m, newId);
    RevokedForever(Mutate(t, m, newId).value, later, earlier);
  }

  // How an unexpired lease is lost: a takeover, a release by its own connection, or a reclaim by
  // its own installation inside the window that a disconnect opened.
  ghost predicate Loses(lease: Lease, t: Table, op: Op) {
    && op.Change? && op.m.scope == lease.scope
    && match op.m.action
       case Takeover => op.newId !in t
       case Release => op.m.installation == lease.installation && op.m.connection == lease.connection
       case Acquire => op.newId !in t && MayReclaim(lease, op.m.installation, op.m.now)
  }

  lemma LostExactly(t: Table, op: Op, id: string)
    requires OneActive(t) && id in t && t[id].revokedAt.None? && t[id].expiresAt > Time(op)
    ensures id in Apply(t, op)
    ensures Apply(t, op)[id].revokedAt.Some? <==> Loses(t[id], t, op)
  {
    assert IsCurrent(t, t[id].scope, id);
    if op.Change? {
      CurrentIsCurrent(t, op.m.scope);
    }
  }

  // The reclaim window exists only after a disconnect of the lease's own connection, and is
  // measured from the last one.
  ghost predicate WindowsFromDisconnects(t: Table) {
    forall id :: id in t ==>
      t[id].reclaimableUntil == if t[id].disconnectedAt.Some? then Some(t[id].disconnectedAt.value + RECLAIM_MS) else None
  }

  // A step leaves a lease's disconnection as it was, or is the disconnection of its connection.
  lemma DisconnectStep(t: Table, op: Op)
    requires OneActive(t) && WindowsFromDisconnects(t)
    ensures WindowsFromDisconnects(Apply(t, op))
    ensures forall id :: id in Apply(t, op) && Apply(t, op)[id].disconnectedAt.Some? ==>
              || (id in t && t[id].disconnectedAt == Apply(t, op)[id].disconnectedAt
                  && t[id].connection == Apply(t, op)[id].connection)
              || (op.Disconnect? && op.connection == Apply(t, op)[id].connection
                  && op.now == Apply(t, op)[id].disconnectedAt.value)
  {
    if op.Change? {
      CurrentIsCurrent(t, op.m.scope);
    }
  }

  lemma {:induction false} ReclaimNeedsDisconnect(ops: seq<Op>)
    ensures WindowsFromDisconnects(Run(map[], ops))
    ensures forall id :: id in Run(map[], ops) && Run(map[], ops)[id].disconnectedAt.Some? ==>
              exists op :: op in ops && op.Disconnect? && op.connection == Run(map[], ops)[id].connection
                           && op.now == Run(map[], ops)[id].disconnectedAt.value
  {
    if ops != [] {
      var n := |ops| - 1;
      ReclaimNeedsDisconnect(ops[..n]);
      RunKeepsOneActive(map[], ops[..n]);
      var t, t', op := Run(map[], ops[..n]), Run(map[], ops), ops[n];
      DisconnectStep(t, op);
      assert op in ops;
      forall id | id in t' && t'[id].disconnectedAt.Some?
        ensures exists d :: d in ops && d.Disconnect? && d.connection == t'[id].connection
                            && d.now == t'[id].disconnectedAt.value
      {
        if id in t && t'[id].disconnectedAt == t[id].disconnectedAt && t'[id].connection == t[id].connection {
          var d :| d in ops[..n] && d.Disconnect? && d.connection == t[id].connection
                   && d.now == t[id].disconnectedAt.value;
          assert d in ops;
        }
      }
    }
  }

  // On a clock that never runs backwards, a lease that has expired never controls again.
  lemma {:induction false} ExpiredForever(t: Table, ops: seq<Op>, id: string, since: int)
    requires OneActive(t) && id in t && t[id].expiresAt <= since
    requires forall op :: op in ops ==> Time(op) >= since
    ensures id in Run(t, ops) && Run(t, ops)[id].expiresAt == t[id].expiresAt
    ensures forall scope, connection, now :: now >= since ==> !Controls(Run(t, ops), scope, id, connection, now)
  {
    if ops != [] {
      var n := |ops| - 1;
      ExpiredForever(t, ops[..n], id, since);
      RunKeepsOneActive(t, ops[..n]);
      assert ops[n] in ops;
      if ops[n].Change? {
        CurrentIsCurrent(Run(t, ops[..n]), ops[n].m.scope);
      }
    }
  }
}
