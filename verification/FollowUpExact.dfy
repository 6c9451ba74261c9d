// What each operation makes of the items of a follow-up queue, whatever the queue is built of.
module FollowUpExact {
  import opened Wrappers
  import opened FollowUps

  // Each item has an id and a position of its own, and they stand by position.
  ghost predicate Sound(q: Queue) {
    && DistinctIds(q)
    && (forall i, j :: 0 <= i < j < |q| ==> q[i].position < q[j].position)
    && (forall i :: 0 <= i < |q| ==> q[i].position >= 1)
  }

  predicate Waits(e: Item) {
    !e.dispatching
  }

  // How many wait.
  function WaitingSet(q: Queue): set<Item> {
    set e | e in q && Waits(e)
  }

  lemma {:induction false} WaitingIsCount(q: Queue)
    requires DistinctIds(q)
    ensures |Waiting(q)| == |WaitingSet(q)|
  {
    if q != [] {
      var n := |q| - 1;
      WaitingIsCount(q[..n]);
      assert q == q[..n] + [q[n]];
      assert WaitingSet(q) == if Waits(q[n]) then WaitingSet(q[..n]) + {q[n]} else WaitingSet(q[..n]);
    }
  }

  // One item more, at the end.
  lemma SoundSnoc(q: Queue, e: Item)
    requires Sound(q) && e.position >= 1
    requires forall other :: other in q ==> other.position < e.position && other.id != e.id
    ensures Sound(q + [e])
  {
    forall i | 0 <= i < |q| ensures q[i].position < e.position && q[i].id != e.id {
      assert q[i] in q;
    }
  }

  // The last item stands behind every other.
  lemma LastIsLast(q: Queue)
    requires Sound(q) && q != []
    ensures Sound(q[..|q| - 1]) && q[|q| - 1].position >= 1
    ensures forall other :: other in q[..|q| - 1] ==> other.position < q[|q| - 1].position && other.id != q[|q| - 1].id
    ensures forall e :: e in q <==> e in q[..|q| - 1] || e == q[|q| - 1]
  {
    assert q == q[..|q| - 1] + [q[|q| - 1]];
  }

  // The list of what waits is in the order of the queue, each item once.
  lemma {:induction false} WaitingInOrder(q: Queue)
    requires Sound(q)
    ensures Sound(Waiting(q)) && forall e :: e in Waiting(q) <==> e in q && Waits(e)
  {
    if q != [] {
      var n := |q| - 1;
      LastIsLast(q);
      WaitingInOrder(q[..n]);
      if Waits(q[n]) {
        SoundSnoc(Waiting(q[..n]), q[n]);
      }
    }
  }

  // The item that waits and stands before all others that do.
  ghost predicate IsNext(q: Queue, e: Item) {
    e in q && Waits(e) && forall other :: other in q && Waits(other) ==> e.position <= other.position
  }

  // Which items are in the queue after an operation.
  ghost predicate Becomes(session: string, q: Queue, op: Op, e: Item) {
    match op
    case Enqueue(id, message, now) =>
      || e in q
      || (&& |WaitingSet(q)| < 10 && (forall other :: other in q ==> other.id != id)
          && e.id == id && e.session == session && e.message == message && Waits(e) && e.createdAt == now
          && (q == [] ==> e.position == 1) && (q != [] ==> e.position == q[|q| - 1].position + 1))
    case Claim => (e in q && !IsNext(q, e)) || (e.dispatching && IsNext(q, e.(dispatching := false)))
    case Finish(id, requeue) =>
      || (e in q && !(e.id == id && e.dispatching))
      || (requeue && e.id == id && Waits(e) && e.(dispatching := true) in q)
    case Remove(id) => e in q && !(e.id == id && Waits(e))
    case ClearAll => e in q && e.dispatching
    case RecoverAll => Waits(e) && (e in q || e.(dispatching := true) in q)
  }

  lemma MarkedIs(q: Queue, i: nat, dispatching: bool)
    requires Sound(q) && i < |q|
    ensures Sound(Marked(q, i, dispatching))
    ensures forall e :: e in Marked(q, i, dispatching) <==> (e in q && e != q[i]) || e == q[i].(dispatching := dispatching)
  {
    var q' := Marked(q, i, dispatching);
    forall e | e in q && e != q[i] ensures e in q' {
      var j :| 0 <= j < |q| && q[j] == e;
      assert q'[j] == e;
    }
    forall e | e in q' ensures (e in q && e != q[i]) || e == q[i].(dispatching := dispatching) {
      var j :| 0 <= j < |q'| && q'[j] == e;
      assert j != i ==> q[j] == e && (j < i || i < j);
    }
    assert q'[i] == q[i].(dispatching := dispatching);
  }

  lemma WithoutIs(q: Queue, i: nat)
    requires Sound(q) && i < |q|
    ensures Sound(Without(q, i)) && forall e :: e in Without(q, i) <==> e in q && e != q[i]
  {
    WithoutIsSound(q, i);
    forall e ensures e in Without(q, i) <==> e in q && e != q[i] {
      WithoutHas(q, i, e);
    }
  }

  lemma WithoutIsSound(q: Queue, i: nat)
    requires Sound(q) && i < |q|
    ensures Sound(Without(q, i))
  {
    forall j | 0 <= j < |Without(q, i)| ensures Without(q, i)[j] == q[if j < i then j else j + 1] {
    }
  }

  lemma WithoutHas(q: Queue, i: nat, e: Item)
    requires Sound(q) && i < |q|
    ensures e in Without(q, i) <==> e in q && e != q[i]
  {
    var q' := Without(q, i);
    if e in q && e != q[i] {
      var j :| 0 <= j < |q| && q[j] == e;
      assert q'[if j < i then j else j - 1] == e;
    }
    if e in q' {
      var j :| 0 <= j < |q'| && q'[j] == e;
      var k := if j < i then j else j + 1;
      assert q[k] == e && (k < i || i < k);
    }
  }

  lemma {:induction false} OnlyDispatchingIs(q: Queue)
    requires Sound(q)
    ensures Sound(OnlyDispatching(q)) && forall e :: e in OnlyDispatching(q) <==> e in q && e.dispatching
  {
    if q != [] {
      var n := |q| - 1;
      LastIsLast(q);
      OnlyDispatchingIs(q[..n]);
      if q[n].dispatching {
        SoundSnoc(OnlyDispatching(q[..n]), q[n]);
      }
    }
  }

  lemma AllWaitingIs(q: Queue)
    requires Sound(q)
    ensures Sound(AllWaiting(q))
    ensures forall e :: e in AllWaiting(q) <==> Waits(e) && (e in q || e.(dispatching := true) in q)
  {
    var q' := AllWaiting(q);
    forall e | Waits(e) && (e in q || e.(dispatching := true) in q) ensures e in q' {
      var i :| 0 <= i < |q| && (q[i] == e || q[i] == e.(dispatching := true));
      assert q'[i] == e;
    }
    forall e | e in q' ensures e in q || e.(dispatching := true) in q {
      var i :| 0 <= i < |q'| && q'[i] == e;
      assert q[i] == e || q[i] == e.(dispatching := true);
    }
  }

  lemma EnqueueIs(session: string, q: Queue, op: Op, e: Item)
    requires Sound(q) && op.Enqueue?
    ensures e in Apply(session, q, op) <==> Becomes(session, q, op, e)
    ensures Sound(Apply(session, q, op))
  {
    WaitingIsCount(q);
    var i := IndexOf(q, op.id);
    assert i.None? <==> forall other :: other in q ==> other.id != op.id;
    var item := Item(op.id, session, op.message, NextPosition(q), false, op.now);
    assert e in q + [item] <==> e in q || e == item;
    assert q != [] ==> forall j :: 0 <= j < |q| ==> q[j].position <= q[|q| - 1].position;
  }

  lemma ClaimIs(session: string, q: Queue, e: Item)
    requires Sound(q)
    ensures e in Apply(session, q, Claim) <==> Becomes(session, q, Claim, e)
    ensures Sound(Apply(session, q, Claim))
  {
    var first := FirstWaiting(q);
    if first.Some? {
      var i := first.value;
      MarkedIs(q, i, true);
      forall other | other in q && Waits(other) ensures q[i].position <= other.position {
        var j :| 0 <= j < |q| && q[j] == other;
        assert i <= j;
      }
      assert IsNext(q, q[i]);
      forall other | IsNext(q, other) ensures other == q[i] {
        var j :| 0 <= j < |q| && q[j] == other;
        assert j == i || j < i || i < j;
      }
    } else {
      assert forall other :: other in q ==> !Waits(other);
    }
  }

  lemma FinishIs(session: string, q: Queue, id: string, requeue: bool, e: Item)
    requires Sound(q)
    ensures e in Apply(session, q, Finish(id, requeue)) <==> Becomes(session, q, Finish(id, requeue), e)
    ensures Sound(Apply(session, q, Finish(id, requeue)))
  {
    var i := IndexOf(q, id);
    if i.Some? {
      OneItemPerId(q, i.value);
      MarkedIs(q, i.value, false);
      WithoutIs(q, i.value);
    }
  }

  lemma OneItemPerId(q: Queue, i: nat)
    requires Sound(q) && i < |q|
    ensures forall other :: other in q && other.id == q[i].id ==> other == q[i]
  {
    forall other | other in q && other.id == q[i].id ensures other == q[i] {
      var j :| 0 <= j < |q| && q[j] == other;
      assert j == i || j < i || i < j;
    }
  }

  lemma RemoveIs(session: string, q: Queue, id: string, e: Item)
    requires Sound(q)
    ensures e in Apply(session, q, Op.Remove(id)) <==> Becomes(session, q, Op.Remove(id), e)
    ensures Sound(Apply(session, q, Op.Remove(id)))
  {
    var i := IndexOf(q, id);
    if i.Some? {
      OneItemPerId(q, i.value);
      WithoutIs(q, i.value);
    }
  }

  // One operation: which items there are after it, each in its place.
  lemma StepExactly(session: string, q: Queue, op: Op, e: Item)
    requires Sound(q)
    ensures Sound(Apply(session, q, op)) && (e in Apply(session, q, op) <==> Becomes(session, q, op, e))
  {
    match op
    case Enqueue(_, _, _) => EnqueueIs(session, q, op, e);
    case Claim => ClaimIs(session, q, e);
    case Finish(id, requeue) => FinishIs(session, q, id, requeue, e);
    case Remove(id) => RemoveIs(session, q, id, e);
    case ClearAll => OnlyDispatchingIs(q);
    case RecoverAll => AllWaitingIs(q);
  }

  // Over every run each operation does exactly that.
  lemma {:induction false} RunsExactly(session: string, ops: seq<Op>, op: Op, e: Item)
    ensures Sound(Run(session, ops))
    ensures e in Run(session, ops + [op]) <==> Becomes(session, Run(session, ops), op, e)
  {
    RunIsSound(session, ops);
    StepExactly(session, Run(session, ops), op, e);
    assert (ops + [op])[..|ops|] == ops;
  }

  lemma {:induction false} RunIsSound(session: string, ops: seq<Op>)
    ensures Sound(Run(session, ops))
  {
    if ops != [] {
      var n := |ops| - 1;
      RunIsSound(session, ops[..n]);
      StepExactly(session, Run(session, ops[..n]), ops[n], Item("", "", "", 0, false, 0));
    }
  }
}
