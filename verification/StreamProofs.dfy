// Resuming and the passes of the compactor, together.
module StreamProofs {
  import opened Wrappers
  import Cursors
  import opened Journal
  import opened JournalProofs
  import opened Streams

  // A canonical cursor gets exactly the events after it: all of (after, current] when that much
  // is kept, and a snapshot at the current cursor, with nothing left to replay, when it is not.
  lemma SyncExact(t: Tables, id: string, h: seq<EventBody>, after: nat)
    requires t.writable && id in t.streams && Holds(t.streams[id], h)
    ensures SyncOf(t, id, Some(Cursors.Print(after)))
         == Ok(if after == |h| then StreamSync(Current, None, [], |h|)
               else if t.streams[id].floor <= after < |h| then StreamSync(Replay, None, Numbered(h, after, |h|), |h|)
               else StreamSync(SnapshotRequired, Some(|h|), [], |h|))
  {
    Cursors.ParsePrint(after);
    var s := t.streams[id];
    if s.floor <= after <= s.current {
      SelectContiguous(s, h, after, s.current);
    }
  }

  // The same answer over any run: what a client is sent never depends on when compaction ran,
  // as long as its cursor is at or above the floor.
  lemma SyncOverRuns(ops: seq<Op>, id: string, after: nat)
    requires var t := Run(ops); t.writable && id in t.streams && t.streams[id].floor <= after <= t.streams[id].current
    ensures var h := History(ops, id);
            && after <= |h|
            && SyncOf(Run(ops), id, Some(Cursors.Print(after)))
            == Ok(if after == |h| then StreamSync(Current, None, [], |h|)
                  else StreamSync(Replay, None, Numbered(h, after, |h|), |h|))
  {
    JournalExact(ops);
    assert Histories(ops)[id] == History(ops, id);
    SyncExact(Run(ops), id, History(ops, id), after);
  }

  // A usable credential whose acknowledgement was in [floor, current] cannot tell that a pass ran.
  lemma CompactionIsInvisible(ops: seq<Op>, op: Op, installation: string, id: string)
    requires op.Compact? && Run(ops).writable && id in Run(ops).streams
    requires var t := Run(ops);
             && (installation, id) in t.acks
             && installation in t.credentials && t.credentials[installation].Usable(op.at)
             && t.streams[id].floor <= t.acks[(installation, id)] <= t.streams[id].current
    ensures var t, t' := Run(ops), Run(ops + [op]);
            var cursor := Some(Cursors.Print(t.acks[(installation, id)]));
            && SyncOf(t', id, cursor) == SyncOf(t, id, cursor)
            && SyncOf(t', id, cursor).Ok? && !SyncOf(t', id, cursor).value.mode.SnapshotRequired?
  {
    var t, ack := Run(ops), Run(ops).acks[(installation, id)];
    assert (ops + [op])[..|ops|] == ops;
    JournalExact(ops);
    var h := Histories(ops);
    SyncExact(t, id, h[id], ack);
    if Enumerates(op.order, t.streams) && GoodBudget(op.maxRows, op.maxBytes) {
      PassAdvances(t, op.order, Pass(t.streams, 0, 0, []), h, op.maxRows, op.maxBytes, op.at);
      var t' := Apply(t, op);
      assert ack in AckRows(t, id, op.at);
      assert Advanced(t.streams[id], t'.streams[id], h[id]);
      SyncExact(t', id, h[id], ack);
    }
  }

  // Every stream whose usable credentials have acknowledged past its floor has caught up with the
  // lowest of those acknowledgements, or is held by one event larger than the byte budget.
  ghost predicate Settled(t: Tables, h: map<string, seq<EventBody>>, maxBytes: nat, at: int)
    requires AllHold(t.streams, h)
  {
    forall id :: id in t.streams ==> Stuck(t, id, t.streams[id], h[id], maxBytes, at)
  }

  lemma {:induction false} RowCountNonNegative(streams: map<string, Stream>, h: map<string, seq<EventBody>>,
        order: seq<string>)
    requires AllHold(streams, h) && forall id :: id in order ==> id in streams
    ensures RowCount(streams, order) >= 0
  {
    if order != [] {
      RowCountNonNegative(streams, h, order[1..]);
    }
  }

  // A pass that deleted nothing left every stream as it was.
  lemma {:induction false} NothingMoved(t: Tables, order: seq<string>, p: Pass, maxRows: nat, maxBytes: nat, at: int)
    requires forall id :: id in order ==> id in p.streams
    requires CompactFrom(t, order, p, maxRows, maxBytes, at).rows == p.rows
    ensures CompactFrom(t, order, p, maxRows, maxBytes, at).streams == p.streams
    decreases |order|
  {
    if order != [] && p.rows < maxRows && p.bytes < maxBytes {
      var q := CompactStream(t, order[0], p, maxRows, maxBytes, at);
      RowsGrow(t, order[1..], q, maxRows, maxBytes, at);
      NothingMoved(t, order[1..], q, maxRows, maxBytes, at);
    }
  }

  lemma {:induction false} RowsGrow(t: Tables, order: seq<string>, p: Pass, maxRows: nat, maxBytes: nat, at: int)
    requires forall id :: id in order ==> id in p.streams
    ensures CompactFrom(t, order, p, maxRows, maxBytes, at).rows >= p.rows
    decreases |order|
  {
    if order != [] && p.rows < maxRows && p.bytes < maxBytes {
      RowsGrow(t, order[1..], CompactStream(t, order[0], p, maxRows, maxBytes, at), maxRows, maxBytes, at);
    }
  }

  // One pass at the default budgets, as the maintenance loop sees it.
  method CompactOnce(store: BridgeStore, order: seq<string>, at: int, ghost h: map<string, seq<EventBody>>)
    returns (deletedRows: nat)
    requires store.writable && Enumerates(order, store.streams) && AllHold(store.streams, h)
    modifies store`streams
    ensures AllAdvanced(old(store.streams), store.streams, h)
    ensures WithinSafe(old(store.Contents()), old(store.streams), store.streams, at)
    ensures 0 <= RowCount(store.streams, order) == RowCount(old(store.streams), order) - deletedRows
    ensures deletedRows == 0 ==> Settled(store.Contents(), h, MAX_EVENT_COMPACTION_BYTES, at)
  {
    ghost var t := store.Contents();
    ghost var p := Pass(t.streams, 0, 0, []);
    PassAdvances(t, order, p, h, MAX_EVENT_COMPACTION_ROWS, MAX_EVENT_COMPACTION_BYTES, at);
    PassAccounts(t, order, p, h, MAX_EVENT_COMPACTION_ROWS, MAX_EVENT_COMPACTION_BYTES, at);
    var result := store.CompactLegacyEvents(order, MAX_EVENT_COMPACTION_ROWS, MAX_EVENT_COMPACTION_BYTES, at);
    RowCountNonNegative(store.streams, h, order);
    deletedRows := result.value.deletedRows;
    if deletedRows == 0 {
      NoProgressExactly(t, order, p, h, MAX_EVENT_COMPACTION_ROWS, MAX_EVENT_COMPACTION_BYTES, at);
      NothingMoved(t, order, p, MAX_EVENT_COMPACTION_ROWS, MAX_EVENT_COMPACTION_BYTES, at);
      assert store.Contents() == t;
    }
  }

  // Once settled, a stream that keeps no row too large for a pass has its floor at the lowest usable
  // acknowledgement or above.
  lemma SettledMeansCaughtUp(t: Tables, h: map<string, seq<EventBody>>, maxBytes: nat, at: int, id: string)
    requires AllHold(t.streams, h) && Settled(t, h, maxBytes, at) && id in t.streams
    requires AckRows(t, id, at) != {}
    requires forall c :: c in t.streams[id].events ==> t.streams[id].events[c].bytes <= maxBytes
    ensures t.streams[id].floor >= LowestAck(AckRows(t, id, at), t.streams[id].current)
  {
    var s := t.streams[id];
    assert Stuck(t, id, s, h[id], maxBytes, at);
    if s.floor < s.current {
      assert s.floor + 1 in s.events;
    }
  }
}
