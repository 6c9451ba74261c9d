// The daemon's maintenance over whole runs: passes at any times, with anything appended, acknowledged
// or revoked between them.
module Maintenance {
  import Cursors
  import opened Journal
  import opened JournalProofs
  import opened StreamProofs

  // The rows that a journal keeps.
  ghost function Kept(streams: map<string, Stream>): set<(string, nat)> {
    set id, c | id in streams && c in streams[id].events :: (id, c)
  }

  // A pass takes place: its budgets and its order are in order and the store is writable.
  ghost predicate IsPass(t: Tables, op: Op) {
    op.Compact? && t.writable && Enumerates(op.order, t.streams) && GoodBudget(op.maxRows, op.maxBytes)
  }

  // The rows that an operation reports as deleted.
  ghost function DeletedBy(t: Tables, op: Op): nat {
    if IsPass(t, op) then CompactPass(t, op.order, op.maxRows, op.maxBytes, op.at).rows else 0
  }

  ghost function Deleted(ops: seq<Op>): nat {
    if ops == [] then 0 else Deleted(ops[..|ops| - 1]) + DeletedBy(Run(ops[..|ops| - 1]), ops[|ops| - 1])
  }

  // The events that a run appended.
  ghost function Appended(ops: seq<Op>): nat {
    if ops == [] then 0
    else
      var before, op := ops[..|ops| - 1], ops[|ops| - 1];
      if op.Append? && CanAppend(Run(before), op.id, op.body) then Appended(before) + 1 else Appended(before)
  }

  // The passes of a run after which the daemon hurries to the next one.
  ghost function Progressing(ops: seq<Op>): nat {
    if ops == [] then 0
    else
      var before, op := ops[..|ops| - 1], ops[|ops| - 1];
      if DeletedBy(Run(before), op) > 0 then Progressing(before) + 1 else Progressing(before)
  }

  // ----- Counting rows -----

  lemma {:induction false} IntervalCount(id: string, low: nat, high: nat)
    requires low <= high
    ensures |set c: nat | low < c <= high :: (id, c)| == high - low
    decreases high
  {
    var all := set c: nat | low < c <= high :: (id, c);
    if low < high {
      IntervalCount(id, low, high - 1);
      var fewer := set c: nat | low < c <= high - 1 :: (id, c);
      assert all == fewer + {(id, high)} && (id, high) !in fewer;
    } else {
      assert all == {};
    }
  }

  ghost function KeptIn(streams: map<string, Stream>, order: seq<string>): set<(string, nat)> {
    set id, c | id in streams && c in streams[id].events && id in order :: (id, c)
  }

  lemma KeptOfOne(streams: map<string, Stream>, h: map<string, seq<EventBody>>, id: string)
    requires AllHold(streams, h) && id in streams
    ensures |KeptIn(streams, [id])| == streams[id].current - streams[id].floor
  {
    var s := streams[id];
    IntervalCount(id, s.floor, s.current);
    assert KeptIn(streams, [id]) == set c: nat | s.floor < c <= s.current :: (id, c);
  }

  lemma {:induction false} KeptInCount(streams: map<string, Stream>, h: map<string, seq<EventBody>>, order: seq<string>)
    requires AllHold(streams, h) && forall id :: id in order ==> id in streams
    requires forall i, j :: 0 <= i < j < |order| ==> order[i] != order[j]
    ensures |KeptIn(streams, order)| == RowCount(streams, order)
  {
    if order == [] {
      assert KeptIn(streams, order) == {};
    } else {
      var id, rest := order[0], order[1..];
      KeptOfOne(streams, h, id);
      KeptInCount(streams, h, rest);
      assert id !in rest;
      assert forall other :: other in order <==> other == id || other in rest;
      assert KeptIn(streams, order) == KeptIn(streams, [id]) + KeptIn(streams, rest);
      assert KeptIn(streams, [id]) !! KeptIn(streams, rest);
    }
  }

  lemma KeptCount(streams: map<string, Stream>, h: map<string, seq<EventBody>>, order: seq<string>)
    requires AllHold(streams, h) && Enumerates(order, streams)
    ensures |Kept(streams)| == RowCount(streams, order)
  {
    KeptInCount(streams, h, order);
    assert KeptIn(streams, order) == Kept(streams);
  }

  // ----- Each operation -----

  lemma PassTakesWhatItReports(before: seq<Op>, op: Op)
    requires IsPass(Run(before), op)
    ensures |Kept(Apply(Run(before), op).streams)| + DeletedBy(Run(before), op) == |Kept(Run(before).streams)|
  {
    var t, h := Run(before), Histories(before);
    JournalExact(before);
    CompactHolds(t, op, h);
    PassRowCount(t, op, h);
    KeptCount(t.streams, h, op.order);
    KeptCount(Apply(t, op).streams, h, op.order);
  }

  lemma PassRowCount(t: Tables, op: Op, h: map<string, seq<EventBody>>)
    requires IsPass(t, op) && AllHold(t.streams, h)
    ensures Apply(t, op).streams.Keys == t.streams.Keys
    ensures RowCount(Apply(t, op).streams, op.order) == RowCount(t.streams, op.order) - DeletedBy(t, op)
  {
    var p := Pass(t.streams, 0, 0, []);
    PassAccounts(t, op.order, p, h, op.maxRows, op.maxBytes, op.at);
    CompactFromKeys(t, op.order, p, op.maxRows, op.maxBytes, op.at);
  }

  lemma NewRowKept(streams: map<string, Stream>, id: string, next: nat, body: EventBody)
    requires id in streams && next !in streams[id].events
    ensures var s := streams[id];
            |Kept(streams[id := Stream(next, s.floor, s.events[next := body])])| == |Kept(streams)| + 1
  {
    var s := streams[id];
    var streams' := streams[id := Stream(next, s.floor, s.events[next := body])];
    forall other, c ensures (other, c) in Kept(streams') <==> (other, c) in Kept(streams) || (other, c) == (id, next) {
    }
    assert Kept(streams') == Kept(streams) + {(id, next)};
  }

  lemma AppendAddsOne(before: seq<Op>, id: string, body: EventBody)
    requires CanAppend(Run(before), id, body)
    ensures |Kept(Apply(Run(before), Append(id, body)).streams)| == |Kept(Run(before).streams)| + 1
  {
    var t := Run(before);
    JournalExact(before);
    assert Holds(t.streams[id], Histories(before)[id]);
    NewRowKept(t.streams, id, t.streams[id].current + 1, body);
  }

  lemma OthersKeepRows(t: Tables, op: Op)
    requires !IsPass(t, op) && !(op.Append? && CanAppend(t, op.id, op.body))
    ensures Kept(Apply(t, op).streams) == Kept(t.streams)
  {
  }

  // ----- Every run -----

  // Over every run, the rows that passes reported and the rows still kept are together the events
  // that were appended.
  lemma {:induction false} RowsAreConserved(ops: seq<Op>)
    ensures Deleted(ops) + |Kept(Run(ops).streams)| == Appended(ops)
  {
    if ops == [] {
      assert Kept(Run(ops).streams) == {};
    } else {
      var before, op := ops[..|ops| - 1], ops[|ops| - 1];
      RowsAreConserved(before);
      if IsPass(Run(before), op) {
        PassTakesWhatItReports(before, op);
      } else if op.Append? && CanAppend(Run(before), op.id, op.body) {
        AppendAddsOne(before, op.id, op.body);
      } else {
        OthersKeepRows(Run(before), op);
      }
    }
  }

  lemma {:induction false} ProgressDeletes(ops: seq<Op>)
    ensures Progressing(ops) <= Deleted(ops)
  {
    if ops != [] {
      ProgressDeletes(ops[..|ops| - 1]);
    }
  }

  // The daemon hurries at most once for each event ever appended, whatever happens between its passes.
  lemma ProgressIsBounded(ops: seq<Op>)
    ensures Progressing(ops) <= Appended(ops) - |Kept(Run(ops).streams)|
  {
    ProgressDeletes(ops);
    RowsAreConserved(ops);
  }

  // And a pass after which it rests has found every stream settled at that moment.
  lemma RestingMeansSettled(ops: seq<Op>, op: Op)
    requires IsPass(Run(ops), op) && DeletedBy(Run(ops), op) == 0
    ensures Run(ops + [op]) == Run(ops) && AllHold(Run(ops).streams, Histories(ops))
    ensures Settled(Run(ops), Histories(ops), op.maxBytes, op.at)
  {
    var t, p := Run(ops), Pass(Run(ops).streams, 0, 0, []);
    assert (ops + [op])[..|ops|] == ops;
    JournalExact(ops);
    NoProgressExactly(t, op.order, p, Histories(ops), op.maxRows, op.maxBytes, op.at);
    NothingMoved(t, op.order, p, op.maxRows, op.maxBytes, op.at);
  }

  // No pass, at any point of any run, moves a floor back or past what usable credentials acknowledged.
  lemma EveryPassIsSafe(ops: seq<Op>, op: Op)
    requires IsPass(Run(ops), op)
    ensures var t, t' := Run(ops), Run(ops + [op]);
            AllAdvanced(t.streams, t'.streams, Histories(ops)) && WithinSafe(t, t.streams, t'.streams, op.at)
  {
    var t := Run(ops);
    assert (ops + [op])[..|ops|] == ops;
    JournalExact(ops);
    PassAdvances(t, op.order, Pass(t.streams, 0, 0, []), Histories(ops), op.maxRows, op.maxBytes, op.at);
  }

  // ----- The daemon's loop -----

  // What the rest of the bridge did in a run: everything but the passes.
  function Others(ops: seq<Op>): seq<Op> {
    if ops == [] then []
    else
      var before, op := ops[..|ops| - 1], ops[|ops| - 1];
      if op.Compact? then Others(before) else Others(before) + [op]
  }

  function Flat(batches: seq<seq<Op>>): seq<Op> {
    if batches == [] then [] else batches[0] + Flat(batches[1..])
  }

  ghost predicate WithoutPasses(batches: seq<seq<Op>>) {
    forall i, j :: 0 <= i < |batches| && 0 <= j < |batches[i]| ==> !batches[i][j].Compact?
  }

  lemma OneMore(ops: seq<Op>, op: Op)
    ensures Run(ops + [op]) == Apply(Run(ops), op)
    ensures Others(ops + [op]) == if op.Compact? then Others(ops) else Others(ops) + [op]
    ensures Progressing(ops + [op]) == if DeletedBy(Run(ops), op) > 0 then Progressing(ops) + 1 else Progressing(ops)
  {
    assert (ops + [op])[..|ops|] == ops;
  }

  method Perform(store: BridgeStore, op: Op)
    requires !op.Compact?
    modifies store
    ensures store.Contents() == Apply(old(store.Contents()), op)
  {
    match op
    case CreateStream(id) => var _ := store.EnsureStream(id);
    case Append(id, body) => var _ := store.AppendEvent(id, body);
    case Ack(installation, id, cursor) =>
      Cursors.ParsePrint(cursor);
      var _ := store.AckCursor(installation, id, Cursors.Print(cursor));
    case SetCredential(installation, credential) => store.SaveCredential(installation, credential);
  }

  lemma OthersOneMore(before: seq<Op>, batch: seq<Op>, i: nat)
    requires i < |batch|
    ensures Others(before) + batch[..i + 1] == (Others(before) + batch[..i]) + [batch[i]]
  {
  }

  method PerformAll(store: BridgeStore, batch: seq<Op>, ghost before: seq<Op>) returns (ghost ops: seq<Op>)
    requires store.Contents() == Run(before) && forall i :: 0 <= i < |batch| ==> !batch[i].Compact?
    modifies store
    ensures before <= ops && store.Contents() == Run(ops) && Others(ops) == Others(before) + batch
    ensures Progressing(ops) == Progressing(before) && (batch == [] ==> ops == before)
  {
    ops := before;
    for i := 0 to |batch|
      invariant before <= ops && store.Contents() == Run(ops) && Others(ops) == Others(before) + batch[..i]
      invariant Progressing(ops) == Progressing(before) && (i == 0 ==> ops == before)
    {
      Perform(store, batch[i]);
      OneMore(ops, batch[i]);
      OthersOneMore(before, batch, i);
      ops := ops + [batch[i]];
    }
  }

  // SELECT stream_id FROM streams; nothing depends on its order.
  method StreamIds(store: BridgeStore) returns (order: seq<string>)
    ensures Enumerates(order, store.streams)
  {
    order := [];
    var rest := store.streams.Keys;
    while rest != {}
      invariant forall id :: id in store.streams <==> id in order || id in rest
      invariant forall id :: id in order ==> id !in rest
      invariant forall i, j :: 0 <= i < j < |order| ==> order[i] != order[j]
      decreases rest
    {
      var id :| id in rest;
      order := order + [id];
      rest := rest - {id};
    }
  }

  ghost predicate IsDefaultPass(op: Op, at: int) {
    op.Compact? && op.maxRows == MAX_EVENT_COMPACTION_ROWS && op.maxBytes == MAX_EVENT_COMPACTION_BYTES && op.at == at
  }

  // One turn of the timer; a store that has turned read-only is left alone and no progress is reported.
  method RunPass(store: BridgeStore, at: int) returns (progressing: bool, ghost op: Op)
    modifies store`streams
    ensures IsDefaultPass(op, at) && Enumerates(op.order, old(store.streams))
    ensures store.Contents() == Apply(old(store.Contents()), op)
    ensures progressing <==> DeletedBy(old(store.Contents()), op) > 0
  {
    var order := StreamIds(store);
    op := Compact(order, MAX_EVENT_COMPACTION_ROWS, MAX_EVENT_COMPACTION_BYTES, at);
    var result := store.CompactLegacyEvents(order, MAX_EVENT_COMPACTION_ROWS, MAX_EVENT_COMPACTION_BYTES, at);
    progressing := result.Ok? && result.value.deletedRows > 0;
  }

  // Every stream is settled, unless the store has turned read-only.
  ghost predicate Rested(t: Tables, h: map<string, seq<EventBody>>, at: int) {
    && AllHold(t.streams, h)
    && (t.writable ==> Settled(t, h, MAX_EVENT_COMPACTION_BYTES, at))
  }

  lemma RestsAfter(ops: seq<Op>, op: Op, at: int)
    requires IsDefaultPass(op, at) && Enumerates(op.order, Run(ops).streams) && DeletedBy(Run(ops), op) == 0
    ensures Rested(Run(ops + [op]), Histories(ops + [op]), at) && Run(ops + [op]) == Run(ops)
  {
    OneMore(ops, op);
    JournalExact(ops + [op]);
    CompactHistories(ops, op);
    if Run(ops).writable {
      RestingMeansSettled(ops, op);
    }
  }

  // The last thing in the run is a pass that deleted nothing.
  ghost predicate EndsIdle(ops: seq<Op>, at: int) {
    ops != [] && IsIdlePass(Run(ops[..|ops| - 1]), ops[|ops| - 1], at)
  }

  ghost predicate IsIdlePass(t: Tables, op: Op, at: int) {
    match op
    case Compact(order, _, _, _) => IsDefaultPass(op, at) && Enumerates(order, t.streams) && DeletedBy(t, op) == 0
    case _ => false
  }

  // A batch and the pass after it extend one run to another.
  ghost predicate IsRound(before: seq<Op>, ops: seq<Op>, batch: seq<Op>, at: int, progressing: bool) {
    && before <= ops && Others(ops) == Others(before) + batch
    && Progressing(ops) == Progressing(before) + (if progressing then 1 else 0)
    && (!progressing ==> EndsIdle(ops, at))
  }

  // How many rows are left after a run.
  ghost function Left(ops: seq<Op>): nat {
    |Kept(Run(ops).streams)|
  }

  // What happens between two passes, and the second of them.
  method RunRound(store: BridgeStore, batch: seq<Op>, at: int, ghost before: seq<Op>)
    returns (progressing: bool, ghost ops: seq<Op>)
    requires store.Contents() == Run(before) && forall i :: 0 <= i < |batch| ==> !batch[i].Compact?
    modifies store
    ensures store.Contents() == Run(ops) && IsRound(before, ops, batch, at, progressing)
    ensures batch == [] ==> Left(ops) + (if progressing then 1 else 0) <= Left(before)
  {
    ghost var after := PerformAll(store, batch, before);
    ghost var op;
    progressing, op := RunPass(store, at);
    OneMore(after, op);
    KeptAfter(after, op);
    ops := after + [op];
    assert ops[..|ops| - 1] == after;
  }

  function Rest(batches: seq<seq<Op>>): seq<seq<Op>> {
    if batches == [] then [] else batches[1..]
  }

  function Next(batches: seq<seq<Op>>): seq<Op> {
    if batches == [] then [] else batches[0]
  }

  lemma NextThenRest(batches: seq<seq<Op>>)
    ensures Flat(batches) == Next(batches) + Flat(Rest(batches))
  {
  }

  // A round, and then the rest of a run.
  ghost predicate Onward(before: seq<Op>, ops: seq<Op>, others: seq<Op>, passes: nat, most: nat) {
    before <= ops && Others(ops) == Others(before) + others && passes <= most + (Progressing(ops) - Progressing(before))
  }

  lemma RoundAndRest(before: seq<Op>, mid: seq<Op>, ops: seq<Op>, batch: seq<Op>, others: seq<Op>, progressing: bool,
                     passes: nat, most: nat, at: int)
    requires IsRound(before, mid, batch, at, progressing) && Onward(mid, ops, others, passes, most)
    ensures Onward(before, ops, batch + others, passes + 1, if progressing then most else most + 1)
  {
  }

  // The timer's callback, which arms the timer again: pass `k` finds that the next batch of whatever
  // else the bridge does has happened, and runs at `clock(k)`.
  method RunAndRearm(store: BridgeStore, batches: seq<seq<Op>>, clock: nat -> int, k: nat,
                     ghost before: seq<Op>)
    returns (passes: nat, at: int, ghost ops: seq<Op>)
    requires store.Contents() == Run(before) && WithoutPasses(batches)
    modifies store
    ensures store.Contents() == Run(ops) && passes >= 1
    ensures Onward(before, ops, Flat(batches), passes, |batches| + 1)
    ensures at == clock(k + (passes - 1)) && EndsIdle(ops, at)
    decreases |batches|, Left(before)
  {
    var progressing;
    at := clock(k);
    progressing, ops := RunRound(store, Next(batches), at, before);
    NextThenRest(batches);
    if progressing || batches != [] {
      ghost var mid, first := ops, at;
      passes, at, ops := RunAndRearm(store, Rest(batches), clock, k + 1, mid);
      RoundAndRest(before, mid, ops, Next(batches), Flat(Rest(batches)), progressing, passes, |Rest(batches)| + 1, first);
      passes := passes + 1;
    } else {
      passes := 1;
    }
  }

  // The daemon's loop, with anything appended, acknowledged or revoked between its passes. When nothing
  // more happens it comes to rest with every stream settled, after no more passes than there are batches
  // and events ever appended, and one.
  method RunLegacyCompaction(store: BridgeStore, batches: seq<seq<Op>>, clock: nat -> int, ghost before: seq<Op>)
    returns (passes: nat, at: int, ghost ops: seq<Op>)
    requires store.Contents() == Run(before) && WithoutPasses(batches)
    modifies store
    ensures before <= ops && store.Contents() == Run(ops) && Others(ops) == Others(before) + Flat(batches)
    ensures 1 <= passes <= |batches| + Appended(ops) + 1
    ensures at == clock(passes - 1) && Rested(Run(ops), Histories(ops), at)
  {
    passes, at, ops := RunAndRearm(store, batches, clock, 0, before);
    ProgressIsBounded(ops);
    IdleIsRested(ops, at);
  }

  lemma IdleIsRested(ops: seq<Op>, at: int)
    requires EndsIdle(ops, at)
    ensures Rested(Run(ops), Histories(ops), at)
  {
    var n := |ops| - 1;
    RestsAfter(ops[..n], ops[n], at);
    assert ops[..n] + [ops[n]] == ops;
  }

  lemma KeptAfter(ops: seq<Op>, op: Op)
    requires op.Compact?
    ensures |Kept(Apply(Run(ops), op).streams)| + DeletedBy(Run(ops), op) == |Kept(Run(ops).streams)|
  {
    if IsPass(Run(ops), op) {
      PassTakesWhatItReports(ops, op);
    } else {
      OthersKeepRows(Run(ops), op);
    }
  }
}
