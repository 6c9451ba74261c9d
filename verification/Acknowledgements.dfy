// What the clients acknowledged and which credentials they held, read off the operations of a run, and
// what compaction owes to it.
module Acknowledgements {
  import opened Wrappers
  import Cursors
  import opened Journal
  import opened JournalProofs
  import opened Streams
  import opened StreamProofs
  import opened Maintenance

  // The cursor of the last acknowledgement of `id` by an installation that the store took: the store was
  // writable and knew the stream.
  ghost function LastAck(ops: seq<Op>, installation: string, id: string): Option<nat> {
    if ops == [] then None
    else
      var before, op := ops[..|ops| - 1], ops[|ops| - 1];
      if op.Ack? && op.installation == installation && op.id == id && Run(before).writable && id in Run(before).streams
      then Some(op.cursor) else LastAck(before, installation, id)
  }

  // The credential that an installation was last given while the store was writable.
  ghost function LastCredential(ops: seq<Op>, installation: string): Option<Credential> {
    if ops == [] then None
    else
      var before, op := ops[..|ops| - 1], ops[|ops| - 1];
      if op.SetCredential? && op.installation == installation && Run(before).writable
      then Some(op.credential) else LastCredential(before, installation)
  }

  // Over every run the table of acknowledgements holds, for each installation and stream, the cursor last
  // acknowledged and nothing else.
  lemma {:induction false} AcksAreTheLast(ops: seq<Op>, installation: string, id: string)
    ensures var last, key := LastAck(ops, installation, id), (installation, id);
            if last.None? then key !in Run(ops).acks else key in Run(ops).acks && Run(ops).acks[key] == last.value
  {
    if ops != [] {
      AcksAreTheLast(ops[..|ops| - 1], installation, id);
    }
  }

  lemma {:induction false} CredentialsAreTheLast(ops: seq<Op>, installation: string)
    ensures var last := LastCredential(ops, installation);
            if last.None? then installation !in Run(ops).credentials
            else installation in Run(ops).credentials && Run(ops).credentials[installation] == last.value
  {
    if ops != [] {
      CredentialsAreTheLast(ops[..|ops| - 1], installation);
    }
  }

  // An installation speaks for compaction at some time: its credential is neither revoked nor expired.
  ghost predicate Speaks(ops: seq<Op>, installation: string, at: int) {
    var credential := LastCredential(ops, installation);
    credential.Some? && !credential.value.revoked
    && (credential.value.expiresAt.None? || credential.value.expiresAt.value > at)
  }

  lemma AckRowsAreTheLast(ops: seq<Op>, id: string, at: int, c: nat)
    ensures c in AckRows(Run(ops), id, at)
       <==> exists installation :: Speaks(ops, installation, at) && LastAck(ops, installation, id) == Some(c)
  {
    var t := Run(ops);
    if c in AckRows(t, id, at) {
      var k :| k in t.acks && k.1 == id && k.0 in t.credentials && t.credentials[k.0].Usable(at) && t.acks[k] == c;
      AcksAreTheLast(ops, k.0, id);
      CredentialsAreTheLast(ops, k.0);
      assert Speaks(ops, k.0, at) && LastAck(ops, k.0, id) == Some(c);
    }
    if installation :| Speaks(ops, installation, at) && LastAck(ops, installation, id) == Some(c) {
      AcksAreTheLast(ops, installation, id);
      CredentialsAreTheLast(ops, installation);
      assert (installation, id) in t.acks && t.credentials[installation].Usable(at);
    }
  }

  // A pass never moves a floor past what any installation that speaks has last acknowledged, and moves
  // none for which nobody speaks.
  lemma FloorFollowsAcks(ops: seq<Op>, op: Op, id: string)
    requires IsPass(Run(ops), op) && id in Run(ops).streams
    ensures id in Run(ops + [op]).streams && Run(ops).streams[id].floor <= Run(ops + [op]).streams[id].floor
    ensures forall installation :: Speaks(ops, installation, op.at) && LastAck(ops, installation, id).Some? ==>
              var c, floor := LastAck(ops, installation, id).value, Run(ops).streams[id].floor;
              Run(ops + [op]).streams[id].floor <= if c < floor then floor else c
    ensures (forall installation :: Speaks(ops, installation, op.at) ==> LastAck(ops, installation, id).None?) ==>
              Run(ops + [op]).streams[id].floor == Run(ops).streams[id].floor
  {
    var t, s := Run(ops), Run(ops).streams[id];
    EveryPassIsSafe(ops, op);
    var floor' := Run(ops + [op]).streams[id].floor;
    assert Advanced(s, Run(ops + [op]).streams[id], Histories(ops)[id]) && floor' <= Safe(t, id, s, op.at);
    forall installation | Speaks(ops, installation, op.at) && LastAck(ops, installation, id).Some?
      ensures floor' <= if LastAck(ops, installation, id).value < s.floor then s.floor else LastAck(ops, installation, id).value
    {
      AckRowsAreTheLast(ops, id, op.at, LastAck(ops, installation, id).value);
    }
    if forall installation :: Speaks(ops, installation, op.at) ==> LastAck(ops, installation, id).None? {
      NobodySpeaks(ops, id, op.at);
    }
  }

  lemma NobodySpeaks(ops: seq<Op>, id: string, at: int)
    requires forall installation :: Speaks(ops, installation, at) ==> LastAck(ops, installation, id).None?
    ensures AckRows(Run(ops), id, at) == {}
  {
    forall c ensures c !in AckRows(Run(ops), id, at) {
      AckRowsAreTheLast(ops, id, at, c);
    }
  }

  // The events of a stream with cursors in (c, current] are all kept, as they were appended.
  ghost predicate KeepsAfter(ops: seq<Op>, id: string, c: nat) {
    && id in Run(ops).streams
    && var s, h := Run(ops).streams[id], History(ops, id);
    s.current == |h| && forall n: nat :: c < n <= |h| ==> n in s.events && s.events[n] == h[n - 1]
  }

  lemma KeptFromFloor(ops: seq<Op>, id: string, c: nat)
    requires id in Run(ops).streams && Run(ops).streams[id].floor <= c
    ensures KeepsAfter(ops, id, c)
  {
    JournalExact(ops);
    assert Histories(ops)[id] == History(ops, id);
  }

  lemma PassHistory(ops: seq<Op>, op: Op, id: string)
    requires op.Compact?
    ensures History(ops + [op], id) == History(ops, id) && Run(ops + [op]).writable == Run(ops).writable
  {
    assert (ops + [op])[..|ops|] == ops;
  }

  // What an installation that speaks has last acknowledged, a pass keeps: every event after that cursor
  // stays, and a sync from it is answered with exactly those events.
  lemma AcknowledgedTailIsKept(ops: seq<Op>, op: Op, installation: string, id: string)
    requires IsPass(Run(ops), op) && id in Run(ops).streams && Speaks(ops, installation, op.at)
    requires var last := LastAck(ops, installation, id);
             last.Some? && Run(ops).streams[id].floor <= last.value <= |History(ops, id)|
    ensures var c, h := LastAck(ops, installation, id).value, History(ops, id);
            && History(ops + [op], id) == h && KeepsAfter(ops + [op], id, c)
            && SyncOf(Run(ops + [op]), id, Some(Cursors.Print(c)))
            == Ok(if c == |h| then StreamSync(Current, None, [], |h|) else StreamSync(Replay, None, Numbered(h, c, |h|), |h|))
  {
    var c := LastAck(ops, installation, id).value;
    FloorFollowsAcks(ops, op, id);
    PassHistory(ops, op, id);
    KeptFromFloor(ops + [op], id, c);
    SyncOverRuns(ops + [op], id, c);
  }

  // And no more than that: with a stream settled and no row too large for a pass, every event that all
  // installations which speak have acknowledged is gone, when there is any of them.
  lemma AcknowledgedPrefixGoes(ops: seq<Op>, op: Op, id: string, c: nat)
    requires IsPass(Run(ops), op) && DeletedBy(Run(ops), op) == 0 && id in Run(ops).streams && c <= |History(ops, id)|
    requires exists installation :: Speaks(ops, installation, op.at) && LastAck(ops, installation, id).Some?
    requires forall installation :: Speaks(ops, installation, op.at) && LastAck(ops, installation, id).Some? ==>
                                      c <= LastAck(ops, installation, id).value
    requires forall n :: n in Run(ops).streams[id].events ==> Run(ops).streams[id].events[n].bytes <= op.maxBytes
    ensures Run(ops).streams[id].floor >= c && forall n :: n in Run(ops).streams[id].events ==> n > c
  {
    var t := Run(ops);
    JournalExact(ops);
    assert Histories(ops)[id] == History(ops, id);
    RestingMeansSettled(ops, op);
    var installation :| Speaks(ops, installation, op.at) && LastAck(ops, installation, id).Some?;
    AckRowsAreTheLast(ops, id, op.at, LastAck(ops, installation, id).value);
    SettledMeansCaughtUp(t, Histories(ops), op.maxBytes, op.at, id);
    var low := LowestAck(AckRows(t, id, op.at), t.streams[id].current);
    AckRowsAreTheLast(ops, id, op.at, low);
  }

  // ----- The report of blocked streams -----

  ghost predicate Blocked(t: Tables, id: string, at: int) {
    id in t.streams && AckRows(t, id, at) == {} && t.streams[id].events.Keys != {}
  }

  lemma OneTurnBlocks(t: Tables, id: string, p: Pass, maxRows: nat, maxBytes: nat, at: int)
    requires id in t.streams && id in p.streams && p.streams[id] == t.streams[id] && p.rows < maxRows && p.bytes < maxBytes
    ensures var q := CompactStream(t, id, p, maxRows, maxBytes, at);
            && q.blocked == (if Blocked(t, id, at) then p.blocked + [id] else p.blocked)
            && q.streams.Keys == p.streams.Keys
            && forall other :: other in p.streams && other != id ==> q.streams[other] == p.streams[other]
  {
  }

  lemma {:induction false} BlockedFrom(t: Tables, order: seq<string>, p: Pass, maxRows: nat, maxBytes: nat, at: int,
        id: string)
    requires forall other :: other in order ==> other in t.streams && other in p.streams && p.streams[other] == t.streams[other]
    requires forall i, j :: 0 <= i < j < |order| ==> order[i] != order[j]
    ensures var q := CompactFrom(t, order, p, maxRows, maxBytes, at);
            && (id in q.blocked ==> id in p.blocked || (id in order && Blocked(t, id, at)))
            && (id in p.blocked ==> id in q.blocked)
            && (q.rows < maxRows && q.bytes < maxBytes && id in order && Blocked(t, id, at) ==> id in q.blocked)
    decreases |order|
  {
    if order != [] && p.rows < maxRows && p.bytes < maxBytes {
      OneTurnBlocks(t, order[0], p, maxRows, maxBytes, at);
      var q := CompactStream(t, order[0], p, maxRows, maxBytes, at);
      assert forall other :: other in order[1..] ==> other != order[0];
      BlockedFrom(t, order[1..], q, maxRows, maxBytes, at, id);
      assert id in order <==> id == order[0] || id in order[1..];
    }
  }

  // A pass reports as blocked only streams that keep events and for which nobody who speaks has ever
  // acknowledged anything; one that ends within its budgets reports all of them.
  lemma BlockedExactly(ops: seq<Op>, op: Op, id: string)
    requires IsPass(Run(ops), op)
    ensures var p := CompactPass(Run(ops), op.order, op.maxRows, op.maxBytes, op.at);
            var silent := id in Run(ops).streams && Run(ops).streams[id].events != map[]
                          && forall installation :: Speaks(ops, installation, op.at) ==> LastAck(ops, installation, id).None?;
            && (id in p.blocked ==> silent)
            && (p.rows < op.maxRows && p.bytes < op.maxBytes ==> (id in p.blocked <==> silent))
  {
    var t := Run(ops);
    BlockedFrom(t, op.order, Pass(t.streams, 0, 0, []), op.maxRows, op.maxBytes, op.at, id);
    if forall installation :: Speaks(ops, installation, op.at) ==> LastAck(ops, installation, id).None? {
      NobodySpeaks(ops, id, op.at);
    } else {
      var installation :| Speaks(ops, installation, op.at) && LastAck(ops, installation, id).Some?;
      AckRowsAreTheLast(ops, id, op.at, LastAck(ops, installation, id).value);
    }
  }

  // ----- The latch -----

  // An insert fails: an append to a known stream under the id of an event that some stream keeps, or an
  // acknowledgement of a stream that does not exist.
  ghost predicate Fails(t: Tables, op: Op) {
    || (op.Append? && op.id in t.streams
        && exists id, c :: id in t.streams && c in t.streams[id].events && t.streams[id].events[c].eventId == op.body.eventId)
    || (op.Ack? && op.id !in t.streams)
  }

  ghost predicate NeverFailed(ops: seq<Op>) {
    ops == [] || (NeverFailed(ops[..|ops| - 1]) && !Fails(Run(ops[..|ops| - 1]), ops[|ops| - 1]))
  }

  // The store turns read-only at the first insert that fails, and at nothing else.
  lemma {:induction false} WritableExactly(ops: seq<Op>)
    ensures Run(ops).writable <==> NeverFailed(ops)
  {
    if ops != [] {
      var before, op := ops[..|ops| - 1], ops[|ops| - 1];
      WritableExactly(before);
      if op.Append? {
        TakenExactly(Run(before), op.body.eventId);
      }
    }
  }

  lemma TakenExactly(t: Tables, eventId: string)
    ensures EventIdTaken(t.streams, eventId)
       <==> exists id, c :: id in t.streams && c in t.streams[id].events && t.streams[id].events[c].eventId == eventId
  {
    if EventIdTaken(t.streams, eventId) {
      var id :| id in t.streams && IdIn(t.streams[id].events, eventId);
      var c :| c in t.streams[id].events && t.streams[id].events[c].eventId == eventId;
    }
    if id, c :| id in t.streams && c in t.streams[id].events && t.streams[id].events[c].eventId == eventId {
      assert IdIn(t.streams[id].events, eventId);
    }
  }

  // The appends to a stream that were made while nothing had failed and after it had been created.
  ghost function AppendsTo(ops: seq<Op>, id: string): seq<EventBody> {
    if ops == [] then []
    else
      var before, op := ops[..|ops| - 1], ops[|ops| - 1];
      var rest := AppendsTo(before, id);
      if op.Append? && op.id == id && CreateStream(id) in before && NeverFailed(ops) then rest + [op.body] else rest
  }

  // Up to the first failure, streams are those that were created, and their histories are what was
  // appended to them.
  lemma {:induction false} HistoryIsAppends(ops: seq<Op>, id: string)
    ensures History(ops, id) == AppendsTo(ops, id)
    ensures NeverFailed(ops) ==> (id in Run(ops).streams <==> CreateStream(id) in ops)
  {
    if ops != [] {
      var before, op := ops[..|ops| - 1], ops[|ops| - 1];
      HistoryIsAppends(before, id);
      WritableExactly(before);
      assert ops == before + [op];
      if op.Append? {
        TakenExactly(Run(before), op.body.eventId);
      }
      if op.Compact? {
        CompactKeys(Run(before), op);
      }
    }
  }
}
