// The follow-up queue of each session: rows with a position and a state, read and changed through
// queries, against the simple queue they stand for.
module FollowUps {
  import opened Wrappers

  const MAX_QUEUED := 10

  // A row of follow_up_queue; a row that is not dispatching is queued.
  datatype Item = Item(id: string, session: string, message: string, position: nat, dispatching: bool, createdAt: int)

  datatype Error = Full | NotFound | IdTaken

  // ----- The queue of one session: its rows in the order in which they were enqueued -----

  type Queue = seq<Item>

  function Waiting(q: Queue): Queue {
    if q == [] then []
    else
      var n := |q| - 1;
      if q[n].dispatching then Waiting(q[..n]) else Waiting(q[..n]) + [q[n]]
  }

  function NextPosition(q: Queue): nat {
    if q == [] then 1 else q[|q| - 1].position + 1
  }

  function FirstWaiting(q: Queue): (i: Option<nat>)
    ensures i.Some? ==> i.value < |q| && !q[i.value].dispatching && forall j :: 0 <= j < i.value ==> q[j].dispatching
    ensures i.None? ==> forall j :: 0 <= j < |q| ==> q[j].dispatching
  {
    if q == [] then None
    else
      var n := |q| - 1;
      var before := FirstWaiting(q[..n]);
      if before.Some? then before else if q[n].dispatching then None else Some(n)
  }

  function IndexOf(q: Queue, id: string): (i: Option<nat>)
    ensures i.Some? ==> i.value < |q| && q[i.value].id == id
    ensures i.None? ==> forall j :: 0 <= j < |q| ==> q[j].id != id
  {
    if q == [] then None
    else
      var n := |q| - 1;
      var before := IndexOf(q[..n], id);
      if before.Some? then before else if q[n].id == id then Some(n) else None
  }

  function Marked(q: Queue, i: nat, dispatching: bool): Queue
    requires i < |q|
  {
    q[i := q[i].(dispatching := dispatching)]
  }

  function Without(q: Queue, i: nat): Queue
    requires i < |q|
  {
    q[..i] + q[i + 1..]
  }

  function OnlyDispatching(q: Queue): Queue {
    if q == [] then []
    else
      var n := |q| - 1;
      if q[n].dispatching then OnlyDispatching(q[..n]) + [q[n]] else OnlyDispatching(q[..n])
  }

  function AllWaiting(q: Queue): Queue {
    seq(|q|, i requires 0 <= i < |q| => q[i].(dispatching := false))
  }

  // ----- How a table stands for a queue -----

  type Table = map<string, Item>

  // `q` lists the session's rows by position, each once.
  ghost predicate IsQueue(rows: Table, session: string, q: Queue) {
    && (forall i :: 0 <= i < |q| ==> q[i].id in rows && rows[q[i].id] == q[i] && q[i].session == session)
    && (forall id :: id in rows && rows[id].session == session ==> rows[id] in q)
    && (forall i, j :: 0 <= i < j < |q| ==> q[i].position < q[j].position)
    && (forall i :: 0 <= i < |q| ==> q[i].position >= 1)
  }

  ghost predicate Keyed(rows: Table) {
    forall id :: id in rows ==> rows[id].id == id
  }

  function QueuedRows(rows: Table, session: string): set<string> {
    set id | id in rows && rows[id].session == session && !rows[id].dispatching
  }

  lemma {:induction false} WaitingExact(q: Queue, e: Item)
    ensures e in Waiting(q) <==> e in q && !e.dispatching
  {
    if q != [] {
      WaitingExact(q[..|q| - 1], e);
      assert q == q[..|q| - 1] + [q[|q| - 1]];
    }
  }

  function WaitingIds(q: Queue): set<string> {
    set e | e in q && !e.dispatching :: e.id
  }

  lemma {:induction false} WaitingIdsCount(q: Queue)
    requires DistinctIds(q)
    ensures |WaitingIds(q)| == |Waiting(q)|
  {
    if q != [] {
      var n := |q| - 1;
      WaitingIdsCount(q[..n]);
      assert q == q[..n] + [q[n]];
      if q[n].dispatching {
        assert WaitingIds(q) == WaitingIds(q[..n]);
      } else {
        assert WaitingIds(q) == WaitingIds(q[..n]) + {q[n].id};
      }
    }
  }

  ghost predicate DistinctIds(q: Queue) {
    forall i, j :: 0 <= i < j < |q| ==> q[i].id != q[j].id
  }

  // The count query counts the waiting items.
  lemma CountIsWaiting(rows: Table, session: string, q: Queue)
    requires IsQueue(rows, session, q) && Keyed(rows)
    ensures |QueuedRows(rows, session)| == |Waiting(q)|
  {
    assert DistinctIds(q);
    assert QueuedRows(rows, session) == WaitingIds(q);
    WaitingIdsCount(q);
  }

  class FollowUpQueue {
    var rows: Table
    ghost var queues: map<string, Queue>

    ghost function Of(session: string): Queue
      reads this
    {
      if session in queues then queues[session] else []
    }

    ghost predicate Valid()
      reads this
    {
      Keyed(rows) && forall session :: IsQueue(rows, session, Of(session))
    }

    constructor ()
      ensures Valid() && queues == map[]
    {
      rows, queues := map[], map[];
    }

    // coalesce(max(position), 0) + 1
    method NewPosition(session: string) returns (position: nat)
      requires Valid()
      ensures position == NextPosition(Of(session))
    {
      var greatest := 0;
      var rest := rows.Keys;
      while rest != {}
        invariant rest <= rows.Keys
        invariant forall id :: id in rows && id !in rest && rows[id].session == session ==> rows[id].position <= greatest
        invariant greatest == 0 || exists id :: id in rows && rows[id].session == session && rows[id].position == greatest
        decreases rest
      {
        var id :| id in rest;
        if rows[id].session == session && rows[id].position > greatest { greatest := rows[id].position; }
        rest := rest - {id};
      }
      position := greatest + 1;
      ghost var q := Of(session);
      if q != [] {
        assert rows[q[|q| - 1].id] == q[|q| - 1];
      }
    }

    // A full queue counts queued rows only. A taken id fails the insert and so the transaction.
    method Enqueue(session: string, message: string, id: string, now: int) returns (r: Result<Item, Error>)
      requires Valid()
      modifies this
      ensures Valid()
      ensures r.Ok? <==> |Waiting(old(Of(session)))| < MAX_QUEUED && id !in old(rows)
      ensures r.Err? ==> rows == old(rows) && queues == old(queues)
      ensures r == Err(Full) <==> |Waiting(old(Of(session)))| >= MAX_QUEUED
      ensures r.Ok? ==> r.value == Item(id, session, message, NextPosition(old(Of(session))), false, now)
                        && queues == old(queues)[session := old(Of(session)) + [r.value]]
      ensures (id in old(rows) ==> old(rows)[id].session == session) ==>
                Of(session) == Apply(session, old(Of(session)), Op.Enqueue(id, message, now))
    {
      ghost var q := Of(session);
      CountIsWaiting(rows, session, q);
      if |QueuedRows(rows, session)| >= MAX_QUEUED { return Err(Full); }
      var position := NewPosition(session);
      if id in rows { return Err(IdTaken); }
      var item := Item(id, session, message, position, false, now);
      Insert(session, item);
      r := Ok(item);
    }

    method Insert(session: string, item: Item)
      requires Valid() && item.id !in rows && item.session == session && item.position == NextPosition(Of(session))
      modifies this
      ensures Valid() && queues == old(queues)[session := old(Of(session)) + [item]]
      ensures rows == old(rows)[item.id := item]
    {
      ghost var q, before := Of(session), rows;
      rows := rows[item.id := item];
      queues := queues[session := q + [item]];
      EnqueueKeeps(before, session, q, item);
      forall other | other != session ensures IsQueue(rows, other, Of(other)) {
        EnqueueElsewhere(before, other, old(Of(other)), item);
      }
    }

    // The queued row with the least position above `after`.
    method NextQueued(session: string, after: nat) returns (next: Option<Item>)
      ensures next.None? ==> forall id :: id in rows && rows[id].session == session && !rows[id].dispatching ==>
                                            rows[id].position <= after
      ensures next.Some? ==> exists id :: id in rows && rows[id] == next.value
      ensures next.Some? ==> next.value.session == session && !next.value.dispatching && next.value.position > after
      ensures next.Some? ==> forall id :: id in rows && rows[id].session == session && !rows[id].dispatching ==>
                                            rows[id].position <= after || next.value.position <= rows[id].position
    {
      next := None;
      var rest := rows.Keys;
      while rest != {}
        invariant rest <= rows.Keys
        invariant next.None? ==>
                    forall id :: id in rows && id !in rest && rows[id].session == session && !rows[id].dispatching ==>
                                                rows[id].position <= after
        invariant next.Some? ==> exists id :: id in rows && rows[id] == next.value
        invariant next.Some? ==> next.value.session == session && !next.value.dispatching && next.value.position > after
        invariant next.Some? ==>
                    forall id :: id in rows && id !in rest && rows[id].session == session && !rows[id].dispatching ==>
                                                rows[id].position <= after || next.value.position <= rows[id].position
        decreases rest
      {
        var id :| id in rest;
        var row := rows[id];
        if row.session == session && !row.dispatching && row.position > after
           && (next.None? || row.position < next.value.position) {
          next := Some(row);
        }
        rest := rest - {id};
      }
    }

    method ListFollowUps(session: string) returns (items: seq<Item>)
      requires Valid()
      ensures items == Waiting(Of(session))
    {
      ghost var q := Of(session);
      ghost var k := 0;
      items := [];
      var after := 0;
      while true
        invariant 0 <= k <= |q| && items == Waiting(q[..k])
        invariant after == if k == 0 then 0 else q[k - 1].position
        decreases |q| - k
      {
        var next := NextQueued(session, after);
        if next.None? {
          NoneLeft(rows, session, q, k, after);
          return;
        }
        ghost var j := NextIs(rows, session, q, k, after, next.value);
        items := items + [next.value];
        after := next.value.position;
        k := j + 1;
      }
    }

    // The oldest queued item becomes dispatching.
    method ClaimNext(session: string) returns (claimed: Option<Item>)
      requires Valid()
      modifies this
      ensures Valid()
      ensures var q := old(Of(session));
              match FirstWaiting(q)
              case None => claimed == None && rows == old(rows) && queues == old(queues)
              case Some(i) => claimed == Some(Marked(q, i, true)[i]) && queues == old(queues)[session := Marked(q, i, true)]
      ensures Of(session) == Apply(session, old(Of(session)), Op.Claim)
    {
      ghost var q := Of(session);
      var items := ListFollowUps(session);
      HeadOfWaiting(q);
      if items == [] { return None; }
      var item := items[0].(dispatching := true);
      ghost var i := FirstWaiting(q).value;
      Replace(session, i, item);
      claimed := Some(item);
    }

    // A row changes in place without changing its key, its session or its position.
    method Replace(session: string, ghost i: nat, item: Item)
      requires Valid() && i < |Of(session)| && item.id == Of(session)[i].id
      requires item.session == session && item.position == Of(session)[i].position
      modifies this
      ensures Valid() && queues == old(queues)[session := old(Of(session))[i := item]]
      ensures rows == old(rows)[item.id := item]
    {
      ghost var q, before := Of(session), rows;
      rows := rows[item.id := item];
      queues := queues[session := q[i := item]];
      ReplaceKeeps(before, session, q, i, item);
      forall other | other != session ensures IsQueue(rows, other, Of(other)) {
        assert IsQueue(before, other, old(Of(other)));
      }
    }

    method Delete(session: string, ghost i: nat, id: string)
      requires Valid() && i < |Of(session)| && id == Of(session)[i].id
      modifies this
      ensures Valid() && queues == old(queues)[session := Without(old(Of(session)), i)]
      ensures rows == old(rows) - {id}
    {
      ghost var q, before := Of(session), rows;
      rows := rows - {id};
      queues := queues[session := Without(q, i)];
      DeleteKeeps(before, session, q, i);
      forall other | other != session ensures IsQueue(rows, other, Of(other)) {
        assert IsQueue(before, other, old(Of(other)));
      }
    }

    // A claim ends: the item goes, or waits again where it was. Any other id changes nothing.
    method Finish(id: string, requeue: bool) returns (ghost session: string)
      requires Valid()
      modifies this
      ensures Valid()
      ensures id in old(rows) && old(rows)[id].dispatching ==>
                var q, i := old(Of(session)), IndexOf(old(Of(session)), id);
                && i.Some? && q[i.value].dispatching
                && queues == old(queues)[session := if requeue then Marked(q, i.value, false) else Without(q, i.value)]
      ensures !(id in old(rows) && old(rows)[id].dispatching) ==> rows == old(rows) && queues == old(queues)
      ensures id in old(rows) ==> session == old(rows)[id].session
                                  && Of(session) == Apply(session, old(Of(session)), Op.Finish(id, requeue))
    {
      session := "";
      if id !in rows { return; }
      var row := rows[id];
      session := row.session;
      ghost var i := Located(rows, session, Of(session), id);
      if !row.dispatching { return; }
      if requeue {
        Replace(row.session, i, row.(dispatching := false));
      } else {
        Delete(row.session, i, id);
      }
    }

    method Remove(session: string, id: string) returns (r: Result<Item, Error>)
      requires Valid()
      modifies this
      ensures Valid()
      ensures var q, i := old(Of(session)), IndexOf(old(Of(session)), id);
              if i.Some? && !q[i.value].dispatching
              then r == Ok(q[i.value]) && queues == old(queues)[session := Without(q, i.value)]
              else r == Err(NotFound) && rows == old(rows) && queues == old(queues)
      ensures Of(session) == Apply(session, old(Of(session)), Op.Remove(id))
    {
      RemoveApplies(session, Of(session), id);
      var found := FindWaiting(session, id);
      if found.None? { return Err(NotFound); }
      ghost var i := IndexOf(Of(session), id).value;
      Delete(session, i, id);
      r := Ok(found.value);
    }

    // The listed item with that id.
    method FindWaiting(session: string, id: string) returns (found: Option<Item>)
      requires Valid()
      ensures var q, i := Of(session), IndexOf(Of(session), id);
              found == if i.Some? && !q[i.value].dispatching then Some(q[i.value]) else None
    {
      ghost var q := Of(session);
      var items := ListFollowUps(session);
      for k := 0 to |items|
        invariant forall j :: 0 <= j < k ==> items[j].id != id
      {
        if items[k].id == id {
          WaitingExact(q, items[k]);
          ghost var i := Located(rows, session, q, id);
          return Some(items[k]);
        }
      }
      ghost var i := IndexOf(q, id);
      if i.Some? && !q[i.value].dispatching {
        WaitingExact(q, q[i.value]);
        assert false;
      }
      found := None;
    }

    method Clear(session: string) returns (items: seq<Item>)
      requires Valid()
      modifies this
      ensures Valid()
      ensures items == Waiting(old(Of(session))) && queues == old(queues)[session := OnlyDispatching(old(Of(session)))]
    {
      ghost var q, before := Of(session), rows;
      items := ListFollowUps(session);
      rows := map id | id in rows && !(rows[id].session == session && !rows[id].dispatching) :: rows[id];
      queues := queues[session := OnlyDispatching(q)];
      ClearKeeps(before, rows, session, q);
      forall other | other != session ensures IsQueue(rows, other, Of(other)) {
        Untouched(before, rows, other, old(Of(other)));
      }
    }

    // On start-up, whatever was dispatching waits again.
    method Recover() returns (changes: nat)
      requires Valid()
      modifies this
      ensures Valid()
      ensures queues == map session | session in old(queues) :: AllWaiting(old(queues)[session])
      ensures changes == |set id | id in old(rows) && old(rows)[id].dispatching|
    {
      ghost var before := rows;
      changes := |set id | id in rows && rows[id].dispatching|;
      rows := map id | id in rows :: rows[id].(dispatching := false);
      queues := map session | session in queues :: AllWaiting(queues[session]);
      forall session ensures IsQueue(rows, session, Of(session)) {
        RecoverKeeps(before, rows, session, old(Of(session)));
      }
    }
  }

  // ----- The table keeps standing for the queue -----

  lemma EnqueueKeeps(rows: Table, session: string, q: Queue, item: Item)
    requires IsQueue(rows, session, q) && item.id !in rows && item.session == session
    requires item.position == NextPosition(q)
    ensures IsQueue(rows[item.id := item], session, q + [item])
  {
  }

  lemma EnqueueElsewhere(rows: Table, session: string, q: Queue, item: Item)
    requires IsQueue(rows, session, q) && item.id !in rows && item.session != session
    ensures IsQueue(rows[item.id := item], session, q)
  {
  }

  lemma ReplaceKeeps(rows: Table, session: string, q: Queue, i: nat, item: Item)
    requires Keyed(rows) && IsQueue(rows, session, q) && i < |q|
    requires item.id == q[i].id && item.session == session && item.position == q[i].position
    ensures IsQueue(rows[item.id := item], session, q[i := item])
  {
    var rows', q' := rows[item.id := item], q[i := item];
    forall id | id in rows' && rows'[id].session == session ensures rows'[id] in q' {
      if id == item.id {
        assert q'[i] == item;
      } else {
        var j :| 0 <= j < |q| && q[j] == rows[id];
        assert q'[j] == q[j];
      }
    }
    forall j | 0 <= j < |q'| ensures q'[j].id in rows' && rows'[q'[j].id] == q'[j] {
      assert j != i ==> q[j].position != q[i].position;
    }
  }

  lemma WithoutAt(q: Queue, i: nat)
    requires i < |q|
    ensures |Without(q, i)| == |q| - 1
    ensures forall j :: 0 <= j < |q| - 1 ==> Without(q, i)[j] == q[if j < i then j else j + 1]
    ensures Rising(q) ==> Rising(Without(q, i))
  {
  }

  lemma DeleteKeeps(rows: Table, session: string, q: Queue, i: nat)
    requires Keyed(rows) && IsQueue(rows, session, q) && i < |q|
    ensures IsQueue(rows - {q[i].id}, session, Without(q, i))
  {
    var rows', q' := rows - {q[i].id}, Without(q, i);
    WithoutAt(q, i);
    forall j | 0 <= j < |q'|
      ensures q'[j].id in rows' && rows'[q'[j].id] == q'[j] && q'[j].session == session && q'[j].position >= 1
    {
      var k := if j < i then j else j + 1;
      assert q[k].position != q[i].position;
    }
    forall id | id in rows' && rows'[id].session == session ensures rows'[id] in q' {
      var k :| 0 <= k < |q| && q[k] == rows[id];
      assert q'[if k < i then k else k - 1] == q[k];
    }
  }

  lemma Untouched(rows: Table, rows': Table, session: string, q: Queue)
    requires IsQueue(rows, session, q)
    requires forall id :: id in rows && rows[id].session == session ==> id in rows' && rows'[id] == rows[id]
    requires forall id :: id in rows' ==> id in rows && rows'[id] == rows[id]
    ensures IsQueue(rows', session, q)
  {
  }

  lemma {:induction false} OnlyDispatchingExact(q: Queue, e: Item)
    ensures e in OnlyDispatching(q) <==> e in q && e.dispatching
  {
    if q != [] {
      OnlyDispatchingExact(q[..|q| - 1], e);
      assert q == q[..|q| - 1] + [q[|q| - 1]];
    }
  }

  ghost predicate Rising(q: Queue) {
    forall i, j :: 0 <= i < j < |q| ==> q[i].position < q[j].position
  }

  lemma {:induction false} OnlyDispatchingRises(q: Queue)
    requires Rising(q)
    ensures Rising(OnlyDispatching(q))
  {
    if q != [] {
      var n := |q| - 1;
      OnlyDispatchingRises(q[..n]);
      forall e | e in OnlyDispatching(q[..n]) ensures e.position < q[n].position {
        OnlyDispatchingExact(q[..n], e);
      }
    }
  }

  lemma ClearKeeps(rows: Table, rows': Table, session: string, q: Queue)
    requires Keyed(rows) && IsQueue(rows, session, q)
    requires rows' == map id | id in rows && !(rows[id].session == session && !rows[id].dispatching) :: rows[id]
    ensures IsQueue(rows', session, OnlyDispatching(q))
  {
    var q' := OnlyDispatching(q);
    OnlyDispatchingRises(q);
    forall i | 0 <= i < |q'|
      ensures q'[i].id in rows' && rows'[q'[i].id] == q'[i] && q'[i].session == session && q'[i].position >= 1
    {
      OnlyDispatchingExact(q, q'[i]);
    }
    forall id | id in rows' && rows'[id].session == session ensures rows'[id] in q' {
      OnlyDispatchingExact(q, rows[id]);
    }
  }

  lemma RecoverKeeps(rows: Table, rows': Table, session: string, q: Queue)
    requires IsQueue(rows, session, q) && rows' == map id | id in rows :: rows[id].(dispatching := false)
    ensures IsQueue(rows', session, AllWaiting(q))
  {
    var q' := AllWaiting(q);
    forall id | id in rows' && rows'[id].session == session ensures rows'[id] in q' {
      var i :| 0 <= i < |q| && q[i] == rows[id];
      assert q'[i] == rows'[id];
    }
  }

  // ----- Reading the queue off the table -----

  lemma RemoveApplies(session: string, q: Queue, id: string)
    ensures var i := IndexOf(q, id);
            Apply(session, q, Op.Remove(id)) == if i.Some? && !q[i.value].dispatching then Without(q, i.value) else q
  {
  }

  lemma {:induction false} Located(rows: Table, session: string, q: Queue, id: string) returns (i: nat)
    requires Keyed(rows) && IsQueue(rows, session, q) && id in rows && rows[id].session == session
    ensures i < |q| && q[i] == rows[id] && IndexOf(q, id) == Some(i)
  {
    i :| 0 <= i < |q| && q[i] == rows[id];
    var k := IndexOf(q, id);
    assert q[i].id == id;
    assert k.Some? && q[k.value] == rows[id];
  }

  lemma {:induction false} SkipDispatching(q: Queue, k: nat, j: nat)
    requires k <= j <= |q| && forall i :: k <= i < j ==> q[i].dispatching
    ensures Waiting(q[..j]) == Waiting(q[..k])
  {
    if k < j {
      SkipDispatching(q, k, j - 1);
      assert q[..j][..j - 1] == q[..j - 1];
    }
  }

  lemma NextIs(rows: Table, session: string, q: Queue, k: nat, after: nat, e: Item) returns (j: nat)
    requires IsQueue(rows, session, q) && k <= |q| && after == if k == 0 then 0 else q[k - 1].position
    requires (exists id :: id in rows && rows[id] == e) && e.session == session && !e.dispatching && e.position > after
    requires forall id :: id in rows && rows[id].session == session && !rows[id].dispatching ==>
               rows[id].position <= after || e.position <= rows[id].position
    ensures k <= j < |q| && q[j] == e && Waiting(q[..j + 1]) == Waiting(q[..k]) + [e]
  {
    j :| 0 <= j < |q| && q[j] == e;
    forall i | k <= i < j ensures q[i].dispatching {
      assert q[i].position < q[j].position && rows[q[i].id] == q[i];
      assert k > 0 ==> q[k - 1].position < q[i].position;
    }
    SkipDispatching(q, k, j);
    assert q[..j + 1][..j] == q[..j];
  }

  lemma {:induction false} NoneLeft(rows: Table, session: string, q: Queue, k: nat, after: nat)
    requires IsQueue(rows, session, q) && k <= |q| && after == if k == 0 then 0 else q[k - 1].position
    requires forall id :: id in rows && rows[id].session == session && !rows[id].dispatching ==> rows[id].position <= after
    ensures Waiting(q) == Waiting(q[..k])
  {
    forall i | k <= i < |q| ensures q[i].dispatching {
      assert rows[q[i].id] == q[i];
      assert k > 0 ==> q[k - 1].position < q[i].position;
    }
    SkipDispatching(q, k, |q|);
    assert q[..|q|] == q;
  }

  lemma {:induction false} HeadOfWaiting(q: Queue)
    ensures Waiting(q) == [] <==> FirstWaiting(q).None?
    ensures FirstWaiting(q).Some? ==> Waiting(q)[0] == q[FirstWaiting(q).value]
  {
    if q != [] {
      HeadOfWaiting(q[..|q| - 1]);
    }
  }

  // ----- Runs of one session's queue -----

  datatype Op =
    | Enqueue(id: string, message: string, now: int)
    | Claim
    | Finish(id: string, requeue: bool)
    | Remove(id: string)
    | ClearAll
    | RecoverAll

  function Apply(session: string, q: Queue, op: Op): Queue {
    match op
    case Enqueue(id, message, now) =>
      if |Waiting(q)| >= MAX_QUEUED || IndexOf(q, id).Some? then q
      else q + [Item(id, session, message, NextPosition(q), false, now)]
    case Claim => if FirstWaiting(q).Some? then Marked(q, FirstWaiting(q).value, true) else q
    case Finish(id, requeue) =>
      var i := IndexOf(q, id);
      if i.None? || !q[i.value].dispatching then q
      else if requeue then Marked(q, i.value, false) else Without(q, i.value)
    case Remove(id) =>
      var i := IndexOf(q, id);
      if i.None? || q[i.value].dispatching then q else Without(q, i.value)
    case ClearAll => OnlyDispatching(q)
    case RecoverAll => AllWaiting(q)
  }

  function Run(session: string, ops: seq<Op>): Queue {
    if ops == [] then [] else Apply(session, Run(session, ops[..|ops| - 1]), ops[|ops| - 1])
  }

  lemma {:induction false} WaitingBound(q: Queue)
    ensures |Waiting(q)| <= |q|
  {
    if q != [] {
      WaitingBound(q[..|q| - 1]);
    }
  }

  // How many items are claimed.
  function Claims(q: Queue): int {
    |q| - |Waiting(q)|
  }

  // No more than `k` items are ever claimed at once.
  ghost predicate ClaimsAtMost(session: string, ops: seq<Op>, k: nat) {
    Claims(Run(session, ops)) <= k && (ops == [] || ClaimsAtMost(session, ops[..|ops| - 1], k))
  }

  // No operation but a successful enqueue makes a queue longer.
  lemma OnlyEnqueueGrows(session: string, q: Queue, op: Op)
    ensures |Apply(session, q, op)| <= |q| || (op.Enqueue? && |Waiting(q)| < MAX_QUEUED && |Apply(session, q, op)| == |q| + 1)
  {
    OnlyDispatchingBound(q);
  }

  lemma {:induction false} OnlyDispatchingBound(q: Queue)
    ensures |OnlyDispatching(q)| <= |q|
  {
    if q != [] {
      OnlyDispatchingBound(q[..|q| - 1]);
    }
  }

  // Requeuing and recovery can lift the waiting items above the cap, but only by what was claimed:
  // with at most `k` claims at a time there are never more than 10 + k items outstanding.
  lemma {:induction false} OutstandingIsBounded(session: string, ops: seq<Op>, k: nat)
    requires ClaimsAtMost(session, ops, k)
    ensures |Run(session, ops)| <= MAX_QUEUED + k
  {
    if ops != [] {
      var before := Run(session, ops[..|ops| - 1]);
      OutstandingIsBounded(session, ops[..|ops| - 1], k);
      OnlyEnqueueGrows(session, before, ops[|ops| - 1]);
    }
  }

  // ----- When the cap of ten waiting items is passed -----

  lemma {:induction false} MarkCounts(q: Queue, i: nat, dispatching: bool)
    requires i < |q|
    ensures |Waiting(Marked(q, i, dispatching))| + (if q[i].dispatching then 0 else 1)
         == |Waiting(q)| + (if dispatching then 0 else 1)
  {
    var n := |q| - 1;
    if i < n {
      MarkCounts(q[..n], i, dispatching);
      assert Marked(q, i, dispatching)[..n] == Marked(q[..n], i, dispatching);
    } else {
      assert Marked(q, i, dispatching)[..n] == q[..n];
    }
  }

  lemma {:induction false} WithoutCounts(q: Queue, i: nat)
    requires i < |q|
    ensures |Waiting(Without(q, i))| + (if q[i].dispatching then 0 else 1) == |Waiting(q)|
  {
    var n := |q| - 1;
    if i < n {
      WithoutCounts(q[..n], i);
      assert Without(q, i)[..n - 1] == Without(q[..n], i);
    } else {
      assert Without(q, i) == q[..n];
    }
  }

  lemma {:induction false} ClearCounts(q: Queue)
    ensures Waiting(OnlyDispatching(q)) == []
  {
    if q != [] {
      var n := |q| - 1;
      ClearCounts(q[..n]);
      var kept := OnlyDispatching(q[..n]);
      assert (kept + [q[n]])[..|kept|] == kept;
    }
  }

  // The steps that leave more than ten items waiting: putting an item back into a full queue, and
  // recovering when more than ten are outstanding.
  predicate LiftsCap(q: Queue, op: Op) {
    match op
    case Finish(id, requeue) =>
      requeue && IndexOf(q, id).Some? && q[IndexOf(q, id).value].dispatching && |Waiting(q)| == MAX_QUEUED
    case RecoverAll => |q| > MAX_QUEUED
    case _ => false
  }

  lemma CapIsPassedExactly(session: string, q: Queue, op: Op)
    requires |Waiting(q)| <= MAX_QUEUED
    ensures |Waiting(Apply(session, q, op))| > MAX_QUEUED <==> LiftsCap(q, op)
  {
    match op
    case Enqueue(id, message, now) =>
      var item := Item(id, session, message, NextPosition(q), false, now);
      assert (q + [item])[..|q|] == q;
    case Claim => if FirstWaiting(q).Some? { MarkCounts(q, FirstWaiting(q).value, true); }
    case Finish(id, requeue) =>
      if IndexOf(q, id).Some? {
        MarkCounts(q, IndexOf(q, id).value, false);
        WithoutCounts(q, IndexOf(q, id).value);
      }
    case Remove(id) => if IndexOf(q, id).Some? { WithoutCounts(q, IndexOf(q, id).value); }
    case ClearAll => ClearCounts(q);
    case RecoverAll => AllAreWaiting(AllWaiting(q));
  }

  ghost predicate CapHolds(session: string, ops: seq<Op>) {
    |Waiting(Run(session, ops))| <= MAX_QUEUED && (ops == [] || CapHolds(session, ops[..|ops| - 1]))
  }

  ghost predicate NeverLifted(session: string, ops: seq<Op>) {
    ops == []
    || (NeverLifted(session, ops[..|ops| - 1]) && !LiftsCap(Run(session, ops[..|ops| - 1]), ops[|ops| - 1]))
  }

  // Over a run there are never more than ten items waiting if and only if no step of it puts an item
  // back into a full queue or recovers more than ten.
  lemma {:induction false} CapHoldsExactly(session: string, ops: seq<Op>)
    ensures CapHolds(session, ops) <==> NeverLifted(session, ops)
  {
    if ops != [] {
      var n := |ops| - 1;
      CapHoldsExactly(session, ops[..n]);
      if CapHolds(session, ops[..n]) {
        CapIsPassedExactly(session, Run(session, ops[..n]), ops[n]);
      }
    }
  }

  // Names of every length.
  function Name(k: nat): string {
    seq(k, _ => 'q')
  }

  function Fill(k: nat): seq<Op> {
    if k == 0 then [] else Fill(k - 1) + [Enqueue(Name(k - 1), "", 0)]
  }

  ghost predicate Filled(q: Queue, k: nat) {
    |q| == k && forall i :: 0 <= i < k ==> !q[i].dispatching && q[i].id == Name(i)
  }

  lemma EnqueueNext(session: string, q: Queue)
    requires |Waiting(q)| < MAX_QUEUED && forall i :: 0 <= i < |q| ==> q[i].id == Name(i)
    ensures Apply(session, q, Enqueue(Name(|q|), "", 0))
         == q + [Item(Name(|q|), session, "", NextPosition(q), false, 0)]
  {
    assert forall i :: 0 <= i < |q| ==> |q[i].id| == i;
    assert |Name(|q|)| == |q|;
  }

  lemma {:induction false} FillFills(session: string, k: nat)
    requires k <= MAX_QUEUED
    ensures Filled(Run(session, Fill(k)), k)
  {
    if k > 0 {
      FillFills(session, k - 1);
      RunSnoc(session, Fill(k - 1), Enqueue(Name(k - 1), "", 0));
      FilledStep(session, Run(session, Fill(k - 1)), k);
    }
  }

  lemma FilledStep(session: string, q: Queue, k: nat)
    requires 1 <= k <= MAX_QUEUED && Filled(q, k - 1)
    ensures Filled(Apply(session, q, Enqueue(Name(k - 1), "", 0)), k)
  {
    AllAreWaiting(q);
    EnqueueNext(session, q);
  }

  lemma RunSnoc(session: string, ops: seq<Op>, op: Op)
    ensures Run(session, ops + [op]) == Apply(session, Run(session, ops), op)
  {
    assert (ops + [op])[..|ops|] == ops;
  }

  // A full queue, one of whose items is claimed and replaced by another.
  lemma OverfullQueue(session: string) returns (q: Queue)
    ensures q == Run(session, Fill(MAX_QUEUED) + [Claim] + [Enqueue(Name(MAX_QUEUED), "", 0)])
    ensures |Waiting(q)| == MAX_QUEUED && |q| == MAX_QUEUED + 1 && q[0].dispatching
    ensures forall i :: 0 <= i < |q| ==> q[i].id == Name(i)
  {
    var full := Run(session, Fill(MAX_QUEUED));
    FillFills(session, MAX_QUEUED);
    AllAreWaiting(full);
    RunSnoc(session, Fill(MAX_QUEUED), Claim);
    var claimed := Marked(full, 0, true);
    assert !full[0].dispatching && Apply(session, full, Claim) == claimed;
    MarkCounts(full, 0, true);
    EnqueueNext(session, claimed);
    RunSnoc(session, Fill(MAX_QUEUED) + [Claim], Enqueue(Name(MAX_QUEUED), "", 0));
    var item := Item(Name(MAX_QUEUED), session, "", NextPosition(claimed), false, 0);
    q := claimed + [item];
    assert q[..|claimed|] == claimed;
  }

  // A run that passes the cap: fill the queue, claim an item, enqueue another, and put the first back.
  lemma CapIsPassedByRequeue(session: string)
    ensures var ops := Fill(MAX_QUEUED) + [Claim] + [Enqueue(Name(MAX_QUEUED), "", 0)] + [Finish(Name(0), true)];
            |Waiting(Run(session, ops))| == MAX_QUEUED + 1
  {
    var q := OverfullQueue(session);
    RunSnoc(session, Fill(MAX_QUEUED) + [Claim] + [Enqueue(Name(MAX_QUEUED), "", 0)], Finish(Name(0), true));
    assert forall i :: 0 <= i < |q| ==> |q[i].id| == i;
    assert IndexOf(q, Name(0)) == Some(0);
    MarkCounts(q, 0, false);
  }

  lemma {:induction false} AllAreWaiting(q: Queue)
    requires forall i :: 0 <= i < |q| ==> !q[i].dispatching
    ensures Waiting(q) == q
  {
    if q != [] {
      AllAreWaiting(q[..|q| - 1]);
    }
  }

  // ----- Order -----

  // The births of the items that a clear keeps.
  function KeptBirths(q: Queue, births: seq<nat>): (kept: seq<nat>)
    requires |q| == |births|
    ensures |kept| == |OnlyDispatching(q)|
  {
    if q == [] then []
    else
      var n := |q| - 1;
      if q[n].dispatching then KeptBirths(q[..n], births[..n]) + [births[n]] else KeptBirths(q[..n], births[..n])
  }

  // For each outstanding item, the index of the operation that enqueued it.
  function Births(session: string, ops: seq<Op>): (births: seq<nat>)
    ensures |births| == |Run(session, ops)|
  {
    if ops == [] then []
    else
      var n := |ops| - 1;
      var q, births := Run(session, ops[..n]), Births(session, ops[..n]);
      match ops[n]
      case Enqueue(id, _, _) => if |Waiting(q)| >= MAX_QUEUED || IndexOf(q, id).Some? then births else births + [n]
      case Finish(id, requeue) =>
        var i := IndexOf(q, id);
        if i.None? || !q[i.value].dispatching || requeue then births else births[..i.value] + births[i.value + 1..]
      case Remove(id) =>
        var i := IndexOf(q, id);
        if i.None? || q[i.value].dispatching then births else births[..i.value] + births[i.value + 1..]
      case ClearAll => KeptBirths(q, births)
      case _ => births
  }

  // Each item is as it was enqueued, but for its state, and the items stand in the order of enqueuing.
  ghost predicate InOrder(q: Queue, births: seq<nat>, ops: seq<Op>) {
    && |q| == |births| && DistinctIds(q)
    && (forall i :: 0 <= i < |q| ==> Born(q[i], births[i], ops))
    && (forall i, j :: 0 <= i < j < |q| ==> births[i] < births[j])
  }

  ghost predicate Born(e: Item, birth: nat, ops: seq<Op>) {
    birth < |ops| && ops[birth] == Enqueue(e.id, e.message, e.createdAt)
  }

  lemma {:induction false} ClearInOrder(q: Queue, births: seq<nat>, ops: seq<Op>)
    requires InOrder(q, births, ops)
    ensures InOrder(OnlyDispatching(q), KeptBirths(q, births), ops)
    ensures forall i :: 0 <= i < |KeptBirths(q, births)| ==> KeptBirths(q, births)[i] in births && OnlyDispatching(q)[i] in q
  {
    if q != [] {
      var n := |q| - 1;
      ClearInOrder(q[..n], births[..n], ops);
      assert q == q[..n] + [q[n]] && births == births[..n] + [births[n]];
      assert Born(q[n], births[n], ops);
    }
  }

  lemma WithoutInOrder(q: Queue, births: seq<nat>, ops: seq<Op>, i: nat)
    requires InOrder(q, births, ops) && i < |q|
    ensures InOrder(Without(q, i), births[..i] + births[i + 1..], ops)
  {
  }

  lemma MoreOps(q: Queue, births: seq<nat>, ops: seq<Op>)
    requires ops != [] && InOrder(q, births, ops[..|ops| - 1])
    ensures InOrder(q, births, ops)
  {
    forall i | 0 <= i < |q| ensures Born(q[i], births[i], ops) {
      assert Born(q[i], births[i], ops[..|ops| - 1]);
    }
  }

  lemma MarkInOrder(q: Queue, births: seq<nat>, ops: seq<Op>, i: nat, dispatching: bool)
    requires InOrder(q, births, ops) && i < |q|
    ensures InOrder(Marked(q, i, dispatching), births, ops)
  {
    var q' := Marked(q, i, dispatching);
    forall j | 0 <= j < |q'| ensures q'[j].id == q[j].id && Born(q'[j], births[j], ops) {
      assert Born(q[j], births[j], ops);
    }
  }

  lemma EnqueueInOrder(session: string, q: Queue, births: seq<nat>, ops: seq<Op>)
    requires ops != [] && InOrder(q, births, ops[..|ops| - 1]) && InOrder(q, births, ops)
    requires ops[|ops| - 1].Enqueue? && IndexOf(q, ops[|ops| - 1].id).None?
    ensures var op := ops[|ops| - 1];
            InOrder(q + [Item(op.id, session, op.message, NextPosition(q), false, op.now)], births + [|ops| - 1], ops)
  {
    forall i | 0 <= i < |q| ensures births[i] < |ops| - 1 {
      assert Born(q[i], births[i], ops[..|ops| - 1]);
    }
  }

  lemma RecoverInOrder(q: Queue, births: seq<nat>, ops: seq<Op>)
    requires InOrder(q, births, ops)
    ensures InOrder(AllWaiting(q), births, ops)
  {
    forall j | 0 <= j < |q| ensures AllWaiting(q)[j].id == q[j].id && Born(AllWaiting(q)[j], births[j], ops) {
      assert Born(q[j], births[j], ops);
    }
  }

  lemma {:induction false} QueueIsInOrder(session: string, ops: seq<Op>)
    ensures InOrder(Run(session, ops), Births(session, ops), ops)
  {
    if ops != [] {
      var n := |ops| - 1;
      var q, births := Run(session, ops[..n]), Births(session, ops[..n]);
      QueueIsInOrder(session, ops[..n]);
      MoreOps(q, births, ops);
      match ops[n]
      case Enqueue(id, _, _) =>
        if |Waiting(q)| < MAX_QUEUED && IndexOf(q, id).None? { EnqueueInOrder(session, q, births, ops); }
      case Claim =>
        if FirstWaiting(q).Some? { MarkInOrder(q, births, ops, FirstWaiting(q).value, true); }
      case Finish(id, requeue) =>
        var i := IndexOf(q, id);
        if i.Some? && q[i.value].dispatching {
          if requeue { MarkInOrder(q, births, ops, i.value, false); } else { WithoutInOrder(q, births, ops, i.value); }
        }
      case Remove(id) =>
        var i := IndexOf(q, id);
        if i.Some? && !q[i.value].dispatching { WithoutInOrder(q, births, ops, i.value); }
      case ClearAll => ClearInOrder(q, births, ops);
      case RecoverAll => RecoverInOrder(q, births, ops);
    }
  }

  lemma FirstIsOldest(q: Queue, births: seq<nat>, ops: seq<Op>, j: nat)
    requires InOrder(q, births, ops) && j < |q| && !q[j].dispatching
    ensures FirstWaiting(q).Some? && births[FirstWaiting(q).value] <= births[j]
  {
    assert FirstWaiting(q).value <= j;
  }

  // A claim takes the item that was enqueued before every other one waiting.
  lemma ClaimTakesTheOldest(session: string, ops: seq<Op>, j: nat)
    requires j < |Run(session, ops)| && !Run(session, ops)[j].dispatching
    ensures FirstWaiting(Run(session, ops)).Some?
    ensures Births(session, ops)[FirstWaiting(Run(session, ops)).value] <= Births(session, ops)[j]
  {
    var q, births := Run(session, ops), Births(session, ops);
    QueueIsInOrder(session, ops);
    FirstIsOldest(q, births, ops, j);
  }

  // A claimed item that is put back stands where it stood: nothing has changed.
  lemma {:induction false} RequeueUndoesClaim(session: string, ops: seq<Op>)
    ensures var q := Run(session, ops);
            match FirstWaiting(q)
            case None => Apply(session, q, Claim) == q
            case Some(i) => Apply(session, Apply(session, q, Claim), Finish(q[i].id, true)) == q
  {
    var q := Run(session, ops);
    QueueIsInOrder(session, ops);
    if FirstWaiting(q).Some? {
      var i := FirstWaiting(q).value;
      var claimed := Apply(session, q, Claim);
      assert claimed[i].id == q[i].id;
      var k := IndexOf(claimed, q[i].id);
      assert k.Some? && claimed[k.value].id == q[k.value].id;
    }
  }

  // An item leaves exactly when its claim is finished for good, or while waiting it is removed or
  // cleared away.
  lemma LeavesExactly(session: string, ops: seq<Op>, op: Op, i: nat)
    requires i < |Run(session, ops)|
    ensures var q := Run(session, ops);
            (forall e :: e in Apply(session, q, op) ==> e.id != q[i].id)
            <==> match op
                 case Finish(id, requeue) => id == q[i].id && q[i].dispatching && !requeue
                 case Remove(id) => id == q[i].id && !q[i].dispatching
                 case ClearAll => !q[i].dispatching
                 case _ => false
  {
    var q := Run(session, ops);
    var q' := Apply(session, q, op);
    QueueIsInOrder(session, ops);
    match op
    case Finish(id, requeue) =>
      var k := IndexOf(q, id);
      if k.Some? && q[k.value].dispatching {
        if requeue { assert q'[i].id == q[i].id; } else { WithoutLoses(q, k.value, i); }
      } else {
        assert q'[i] == q[i];
      }
    case Remove(id) =>
      var k := IndexOf(q, id);
      if k.Some? && !q[k.value].dispatching { WithoutLoses(q, k.value, i); } else { assert q'[i] == q[i]; }
    case ClearAll => ClearLoses(q, i);
    case _ => assert q'[i].id == q[i].id;
  }

  lemma WithoutLoses(q: Queue, k: nat, i: nat)
    requires DistinctIds(q) && k < |q| && i < |q|
    ensures (forall e :: e in Without(q, k) ==> e.id != q[i].id) <==> i == k
  {
    WithoutAt(q, k);
    if i != k {
      assert Without(q, k)[if i < k then i else i - 1] == q[i];
    }
  }

  lemma ClearLoses(q: Queue, i: nat)
    requires DistinctIds(q) && i < |q|
    ensures (forall e :: e in OnlyDispatching(q) ==> e.id != q[i].id) <==> !q[i].dispatching
  {
    OnlyDispatchingExact(q, q[i]);
    forall e | e in OnlyDispatching(q) && e.id == q[i].id ensures e == q[i] {
      OnlyDispatchingExact(q, e);
      var k :| 0 <= k < |q| && q[k] == e;
    }
  }
}
