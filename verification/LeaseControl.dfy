// Who controls a scope, and until when: what the lease table gives its holders, and a simple account of
// one scope that it follows over every run.
module LeaseControl {
  import opened Wrappers
  import opened Leases

  // ----- What one operation gives -----

  // After a granted acquisition or takeover the new lease controls the scope on its own connection for
  // 45 seconds, no other lease or connection does, and nothing outside the scope has changed.
  lemma GrantGivesControl(t: Table, m: Mutation, newId: string)
    requires OneActive(t) && !m.action.Release? && Mutate(t, m, newId).Ok?
    ensures var t' := Mutate(t, m, newId).value;
            && newId !in t && t'.Keys == t.Keys + {newId} && t'[newId].installation == m.installation
            && (forall at :: Controls(t', m.scope, newId, m.connection, at) <==> at < m.now + 45_000)
            && (forall id, connection, at :: Controls(t', m.scope, id, connection, at) ==>
                                               id == newId && connection == m.connection)
            && (forall id :: id in t && !IsCurrent(t, m.scope, id) ==> t'[id] == t[id])
  {
    CurrentIsCurrent(t, m.scope);
    MutateKeepsOneActive(t, m, newId);
    var t' := Mutate(t, m, newId).value;
    assert IsCurrent(t', m.scope, newId) && t'[newId].connection == m.connection;
  }

  // What becomes of the lease that a grant replaces.
  lemma GrantRevokesTheHolder(t: Table, m: Mutation, newId: string, id: string)
    requires OneActive(t) && !m.action.Release? && Mutate(t, m, newId).Ok? && IsCurrent(t, m.scope, id)
    ensures var row := Mutate(t, m, newId).value[id];
            && row.revokedAt == Some(m.now)
            && (row.takeoverReason == Some(ExplicitTakeover) <==> m.action.Takeover?)
            && (row.takeoverReason == Some(Expired) ==> t[id].expiresAt <= m.now)
            && (row.takeoverReason == Some(SameInstallationReclaim) ==> t[id].installation == m.installation)
            && row == t[id].(revokedAt := row.revokedAt, takeoverReason := row.takeoverReason)
  {
    CurrentIsCurrent(t, m.scope);
  }

  // When an acquisition under an unused id is granted: always for a takeover; otherwise when nobody holds
  // the scope, the lease has expired, or it is the installation's own and open to reclaim.
  lemma GrantedExactly(t: Table, m: Mutation, newId: string)
    requires OneActive(t) && !m.action.Release? && newId !in t
    ensures Mutate(t, m, newId).Ok?
       <==> || m.action.Takeover?
            || (forall id :: !IsCurrent(t, m.scope, id))
            || (exists id :: IsCurrent(t, m.scope, id)
                             && (t[id].expiresAt <= m.now
                                 || (t[id].installation == m.installation && t[id].reclaimableUntil.Some?
                                     && m.now <= t[id].reclaimableUntil.value)))
    ensures Mutate(t, m, newId).Err? ==> Mutate(t, m, newId) == Err(ControllerActive)
  {
    CurrentIsCurrent(t, m.scope);
  }

  // A renewal is the holder's alone, on its connection and before the lease expires, and gives it control
  // until 45 seconds from then.
  lemma RenewalGivesControl(t: Table, scope: string, id: string, connection: string, now: int)
    requires OneActive(t)
    ensures Renewed(t, scope, id, connection, now).Ok?
       <==> id in t && t[id].scope == scope && t[id].revokedAt.None? && t[id].connection == connection && now < t[id].expiresAt
    ensures Renewed(t, scope, id, connection, now).Ok? ==>
              var t' := Renewed(t, scope, id, connection, now).value;
              && t'.Keys == t.Keys && (forall other :: other in t && other != id ==> t'[other] == t[other])
              && (forall at :: Controls(t', scope, id, connection, at) <==> at < now + 45_000)
              && t'[id] == t[id].(expiresAt := t'[id].expiresAt)
  {
  }

  // The holder can always let go, only the holder can, and then nobody controls the scope.
  lemma ReleaseExactly(t: Table, m: Mutation, newId: string)
    requires OneActive(t) && m.action.Release?
    ensures Mutate(t, m, newId).Ok?
       <==> exists id :: IsCurrent(t, m.scope, id) && t[id].installation == m.installation && t[id].connection == m.connection
    ensures Mutate(t, m, newId).Err? ==> Mutate(t, m, newId) == Err(Unauthorized)
    ensures Mutate(t, m, newId).Ok? ==>
              var t' := Mutate(t, m, newId).value;
              && t'.Keys == t.Keys && (forall id :: !IsCurrent(t', m.scope, id))
              && forall id :: id in t ==>
                   t'[id] == if IsCurrent(t, m.scope, id) then t[id].(revokedAt := Some(m.now)) else t[id]
  {
    CurrentIsCurrent(t, m.scope);
    var current := Current(t, m.scope);
    assert current.Some? ==> IsCurrent(t, m.scope, current.value);
    if Mutate(t, m, newId).Ok? {
      forall id ensures !IsCurrent(Mutate(t, m, newId).value, m.scope, id) {
        assert IsCurrent(t, m.scope, id) ==> id == current.value;
      }
    }
  }

  // After its connection is lost the installation may have the scope back, on any connection, for exactly
  // 60 seconds, or once the lease has expired; any other installation only once it has expired.
  lemma ReclaimedExactly(t: Table, only: Option<string>, lost: string, since: int, id: string, m: Mutation, newId: string)
    requires OneActive(t) && IsCurrent(t, m.scope, id) && t[id].connection == lost
    requires (only.None? || only.value == m.scope) && m.action.Acquire? && newId !in t
    ensures var t' := Disconnected(t, only, lost, since);
            && OneActive(t')
            && (Mutate(t', m, newId).Ok?
                <==> t[id].expiresAt <= m.now || (m.installation == t[id].installation && m.now <= since + 60_000))
            && (forall at :: Controls(t', m.scope, id, lost, at) <==> at < t[id].expiresAt)
  {
    var t' := Disconnected(t, only, lost, since);
    assert forall other, s :: IsCurrent(t', s, other) <==> IsCurrent(t, s, other);
    CurrentIsCurrent(t', m.scope);
  }

  // Nobody else's lease is touched.
  lemma DisconnectedExactly(t: Table, only: Option<string>, lost: string, since: int, id: string)
    requires id in t
    ensures var t' := Disconnected(t, only, lost, since);
            && t'.Keys == t.Keys
            && (t[id].connection != lost || t[id].revokedAt.Some? || (only.Some? && only.value != t[id].scope) ==>
                  t'[id] == t[id])
            && t'[id] == t[id].(disconnectedAt := t'[id].disconnectedAt, reclaimableUntil := t'[id].reclaimableUntil)
  {
  }

  // ----- One scope, over a run -----

  // The lease that holds a scope.
  datatype Holder = Holder(id: string, installation: string, connection: string, until: int, reclaim: Option<int>)

  predicate MayHave(held: Option<Holder>, m: Mutation) {
    || held.None? || m.action.Takeover? || held.value.until <= m.now
    || (held.value.installation == m.installation && held.value.reclaim.Some? && m.now <= held.value.reclaim.value)
  }

  // What one operation makes of the holder of a scope; `unused` says that the id drawn is a new one.
  function NextHolder(held: Option<Holder>, scope: string, op: Op, unused: bool): Option<Holder> {
    match op
    case Change(m, newId) =>
      if m.scope != scope then held
      else if m.action.Release? then
        if held.Some? && held.value.installation == m.installation && held.value.connection == m.connection then None else held
      else if unused && MayHave(held, m) then Some(Holder(newId, m.installation, m.connection, m.now + 45_000, None))
      else held
    case Renew(which, id, connection, now) =>
      if which == scope && held.Some? && held.value.id == id && held.value.connection == connection && now < held.value.until
      then Some(held.value.(until := now + 45_000)) else held
    case Disconnect(only, connection, now) =>
      if (only.None? || only.value == scope) && held.Some? && held.value.connection == connection
      then Some(held.value.(reclaim := Some(now + 60_000))) else held
  }

  // The lease ids drawn in a run, and the holder of a scope after it.
  ghost function HolderOf(ops: seq<Op>, scope: string): Option<Holder> {
    if ops == [] then None
    else
      var before, op := ops[..|ops| - 1], ops[|ops| - 1];
      NextHolder(HolderOf(before, scope), scope, op, op.Change? && op.newId !in Run(map[], before))
  }

  // The table's unrevoked row of a scope is its holder.
  ghost predicate Agrees(t: Table, scope: string, held: Option<Holder>) {
    && (forall id :: IsCurrent(t, scope, id) <==> held.Some? && held.value.id == id)
    && (held.Some? ==>
          && IsCurrent(t, scope, held.value.id)
          && var row, h := t[held.value.id], held.value;
          row.installation == h.installation && row.connection == h.connection && row.expiresAt == h.until
          && row.reclaimableUntil == h.reclaim)
  }

  lemma ChangeAgrees(t: Table, scope: string, held: Option<Holder>, m: Mutation, newId: string)
    requires OneActive(t) && Agrees(t, scope, held)
    ensures Agrees(Apply(t, Change(m, newId)), scope, NextHolder(held, scope, Change(m, newId), newId !in t))
  {
    var t' := Apply(t, Change(m, newId));
    var current := Current(t, m.scope);
    CurrentIsCurrent(t, m.scope);
    assert current.Some? ==> IsCurrent(t, m.scope, current.value);
    assert m.scope == scope ==> (held.Some? <==> current.Some?) && (held.Some? ==> held.value.id == current.value);
    if m.action.Release? {
      ReleaseExactly(t, m, newId);
      if Mutate(t, m, newId).Ok? {
        forall id ensures IsCurrent(t', scope, id) <==> scope != m.scope && IsCurrent(t, scope, id) {
          assert id in t ==> t[id].scope == t'[id].scope;
        }
      }
    } else if Mutate(t, m, newId).Ok? {
      GrantGivesControl(t, m, newId);
      forall id ensures IsCurrent(t', scope, id) <==> if scope == m.scope then id == newId else IsCurrent(t, scope, id) {
        assert IsCurrent(t', m.scope, id) && id != newId ==> IsCurrent(t, m.scope, id) && current == Some(id);
        assert id in t ==> t[id].scope == t'[id].scope;
      }
    }
  }

  lemma StepAgrees(t: Table, scope: string, held: Option<Holder>, op: Op)
    requires OneActive(t) && Agrees(t, scope, held)
    ensures Agrees(Apply(t, op), scope, NextHolder(held, scope, op, op.Change? && op.newId !in t))
  {
    match op
    case Change(m, newId) => ChangeAgrees(t, scope, held, m, newId);
    case Renew(_, _, _, _) => assert forall id :: IsCurrent(Apply(t, op), scope, id) <==> IsCurrent(t, scope, id);
    case Disconnect(_, _, _) => assert forall id :: IsCurrent(Apply(t, op), scope, id) <==> IsCurrent(t, scope, id);
  }

  // Over every run a lease controls a scope at some time if and only if it is the one that this account
  // of the scope names, on the connection that it was granted to, and before its time is up.
  lemma {:induction false} HolderExactly(ops: seq<Op>, scope: string)
    ensures Agrees(Run(map[], ops), scope, HolderOf(ops, scope))
    ensures forall id, connection, at :: Controls(Run(map[], ops), scope, id, connection, at)
              <==> var held := HolderOf(ops, scope);
                   held.Some? && held.value.id == id && held.value.connection == connection && at < held.value.until
  {
    if ops != [] {
      var before := ops[..|ops| - 1];
      HolderExactly(before, scope);
      RunKeepsOneActive(map[], before);
      StepAgrees(Run(map[], before), scope, HolderOf(before, scope), ops[|ops| - 1]);
    }
  }
}
