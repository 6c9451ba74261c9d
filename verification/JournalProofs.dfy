// What the journal keeps over every run of appends, acknowledgements and compactions.
module JournalProofs {
  import opened Wrappers
  import opened Journal

  // A stream holds exactly the events of its history `h` with cursors in (floor, current].
  ghost predicate Holds(s: Stream, h: seq<EventBody>) {
    && s.floor <= s.current == |h|
    && (forall c: nat :: c in s.events <==> s.floor < c <= s.current)
    && (forall c: nat :: c in s.events ==> s.events[c] == h[c - 1])
  }

  ghost predicate AllHold(streams: map<string, Stream>, h: map<string, seq<EventBody>>) {
    forall id :: id in streams ==> id in h && Holds(streams[id], h[id])
  }

  // The events with cursors in (after, through], read off the history.
  function Numbered(h: seq<EventBody>, after: nat, through: nat): seq<StoredEvent>
    requires after <= through <= |h|
  {
    seq(through - after, i requires 0 <= i < through - after => StoredEvent(after + i + 1, h[after + i]))
  }

  // ----- Queries -----

  // `rows` are the rows of the interval (after, through], each once, in cursor order.
  ghost predicate IsSelection(rows: seq<StoredEvent>, events: map<nat, EventBody>, after: nat, through: nat) {
    && (forall e :: e in rows ==>
          after < e.cursor <= through && e.cursor in events && e.body == events[e.cursor])
    && (forall i, j :: 0 <= i < j < |rows| ==> rows[i].cursor < rows[j].cursor)
    && (forall c: nat :: c in events && after < c <= through ==> StoredEvent(c, events[c]) in rows)
  }

  lemma {:induction false} SelectExact(events: map<nat, EventBody>, after: nat, through: nat)
    ensures IsSelection(Select(events, after, through), events, after, through)
    decreases through
  {
    if after < through {
      SelectExact(events, after, through - 1);
      var rest := Select(events, after, through - 1);
      if through in events {
        assert Select(events, after, through) == rest + [StoredEvent(through, events[through])];
      }
    }
  }

  lemma {:induction false} SelectContiguous(s: Stream, h: seq<EventBody>, after: nat, through: nat)
    requires Holds(s, h) && s.floor <= after <= through <= s.current
    ensures Select(s.events, after, through) == Numbered(h, after, through)
    decreases through
  {
    if after < through {
      SelectContiguous(s, h, after, through - 1);
      assert through in s.events;
    }
  }

  // In any table, gaps or not, the range delete removes exactly a selected prefix of the candidates.
  lemma RangeDeleteIsSelectedPrefix(s: Stream, safe: nat, k: nat)
    requires 0 < k <= |Select(s.events, s.floor, safe)|
    ensures var rows := Select(s.events, s.floor, safe)[..k];
            var kept := Truncate(s, rows[k - 1].cursor).events;
            forall c: nat :: c in s.events ==> (c !in kept <==> StoredEvent(c, s.events[c]) in rows)
  {
    SelectExact(s.events, s.floor, safe);
    var all := Select(s.events, s.floor, safe);
    var rows := all[..k];
    var greatest := rows[k - 1].cursor;
    assert all == rows + all[k..];
    forall c: nat | c in s.events
      ensures s.floor < c <= greatest <==> StoredEvent(c, s.events[c]) in rows
    {
      if s.floor < c <= greatest {
        var i :| 0 <= i < |all| && all[i] == StoredEvent(c, s.events[c]);
        assert i < k;
        assert rows[i] == all[i];
      }
    }
  }

  // ----- One stream -----

  lemma {:induction false} TotalBytesSplit(a: seq<StoredEvent>, b: seq<StoredEvent>)
    ensures TotalBytes(a + b) == TotalBytes(a) + TotalBytes(b)
    decreases |b|
  {
    if b == [] {
      assert a + b == a;
    } else {
      var n := |b| - 1;
      assert (a + b)[..|a + b| - 1] == a + b[..n];
      TotalBytesSplit(a, b[..n]);
    }
  }

  // The fitting prefix is within the budget and cannot be one row longer.
  lemma {:induction false} FitCountIsGreatest(rows: seq<StoredEvent>, budget: nat)
    ensures var n := FitCount(rows, budget);
            && TotalBytes(rows[..n]) <= budget
            && (n < |rows| ==> TotalBytes(rows[..n + 1]) > budget)
  {
    if rows != [] && rows[0].body.bytes <= budget {
      FitCountIsGreatest(rows[1..], budget - rows[0].body.bytes);
      var n := FitCount(rows, budget);
      TotalBytesSplit([rows[0]], rows[1..][..n - 1]);
      assert [rows[0]] + rows[1..][..n - 1] == rows[..n];
      assert [rows[0]][..0] == [];
      if n < |rows| {
        TotalBytesSplit([rows[0]], rows[1..][..n]);
        assert [rows[0]] + rows[1..][..n] == rows[..n + 1];
      }
    } else if rows != [] {
      assert rows[..1][..0] == [] && rows[..0] == [];
      assert rows[..1][0] == rows[0];
    }
  }

  // The rows a stream gives up are the next ones after its floor, within both budgets, and the
  // run stops only at the safe cursor, at the row budget, or before a row that breaks the byte budget.
  lemma VictimsExact(s: Stream, h: seq<EventBody>, safe: nat, rowBudget: nat, byteBudget: nat)
    requires Holds(s, h) && s.floor <= safe <= s.current
    ensures var rows := Victims(s, safe, rowBudget, byteBudget);
            && s.floor + |rows| <= safe && |rows| <= rowBudget && TotalBytes(rows) <= byteBudget
            && rows == Numbered(h, s.floor, s.floor + |rows|)
            && (s.floor + |rows| == safe || |rows| == rowBudget
                || TotalBytes(Numbered(h, s.floor, s.floor + |rows| + 1)) > byteBudget)
  {
    SelectContiguous(s, h, s.floor, safe);
    var candidates := Limit(Select(s.events, s.floor, safe), rowBudget);
    FitCountIsGreatest(candidates, byteBudget);
    var n := FitCount(candidates, byteBudget);
    assert candidates[..n] == Numbered(h, s.floor, s.floor + n);
    if n < |candidates| {
      assert candidates[..n + 1] == Numbered(h, s.floor, s.floor + n + 1);
    }
  }

  // A stream's floor moved up and exactly the rows under it went.
  ghost predicate Advanced(s: Stream, s': Stream, h: seq<EventBody>) {
    Holds(s, h) && Holds(s', h) && s'.current == s.current && s.floor <= s'.floor
  }

  // Deleting the first `k` rows after the floor moves the floor to floor + k.
  lemma TruncateAdvances(s: Stream, h: seq<EventBody>, k: nat)
    requires Holds(s, h) && s.floor + k <= s.current
    ensures var s' := Truncate(s, s.floor + k);
            Advanced(s, s', h) && s'.floor == s.floor + k
  {
  }

  // The cursor up to which a pass may delete: the floor itself when no usable credential has acked.
  ghost function Safe(t: Tables, id: string, s: Stream, at: int): (safe: nat)
    requires s.floor <= s.current
    ensures s.floor <= safe <= s.current
  {
    var acks := AckRows(t, id, at);
    if acks == {} || LowestAck(acks, s.current) <= s.floor then s.floor else LowestAck(acks, s.current)
  }

  // What one stream's turn does to a pass: its floor moves up to its safe cursor, until the row
  // budget is spent, or to the last row that fits the byte budget, whichever comes first.
  ghost predicate Turn(s: Stream, s': Stream, h: seq<EventBody>, safe: nat,
                       rows: nat, bytes: nat, rows': nat, bytes': nat, maxRows: nat, maxBytes: nat)
  {
    && Advanced(s, s', h)
    && rows' == rows + s'.floor - s.floor <= maxRows
    && s'.floor <= safe <= s.current
    && bytes' == bytes + TotalBytes(Numbered(h, s.floor, s'.floor)) <= maxBytes
    && (s'.floor == safe || rows' == maxRows
        || bytes + TotalBytes(Numbered(h, s.floor, s'.floor + 1)) > maxBytes)
  }

  function WithoutVictims(s: Stream, victims: seq<StoredEvent>): Stream {
    if victims == [] then s else Truncate(s, victims[|victims| - 1].cursor)
  }

  lemma DeletingTurn(s: Stream, h: seq<EventBody>, low: nat, rows: nat, bytes: nat, maxRows: nat, maxBytes: nat)
    requires Holds(s, h) && s.floor <= low <= s.current && rows < maxRows && bytes < maxBytes
    ensures var victims := Victims(s, low, maxRows - rows, maxBytes - bytes);
            Turn(s, WithoutVictims(s, victims), h, low, rows, bytes, rows + |victims|, bytes + TotalBytes(victims),
                 maxRows, maxBytes)
  {
    VictimsExact(s, h, low, maxRows - rows, maxBytes - bytes);
    var victims := Victims(s, low, maxRows - rows, maxBytes - bytes);
    VictimsTurn(s, h, low, victims, rows, bytes, maxRows, maxBytes);
  }

  // Deleting the next rows after the floor, as far as the budgets go, is a turn.
  lemma VictimsTurn(s: Stream, h: seq<EventBody>, low: nat, victims: seq<StoredEvent>, rows: nat, bytes: nat, maxRows: nat,
                    maxBytes: nat)
    requires Holds(s, h) && s.floor + |victims| <= low <= s.current
    requires rows + |victims| <= maxRows && bytes + TotalBytes(victims) <= maxBytes
    requires victims == Numbered(h, s.floor, s.floor + |victims|)
    requires s.floor + |victims| == low || rows + |victims| == maxRows
             || bytes + TotalBytes(Numbered(h, s.floor, s.floor + |victims| + 1)) > maxBytes
    ensures Turn(s, WithoutVictims(s, victims), h, low, rows, bytes, rows + |victims|, bytes + TotalBytes(victims),
                 maxRows, maxBytes)
  {
    if victims != [] {
      assert victims[|victims| - 1].cursor == s.floor + |victims|;
      TruncateAdvances(s, h, |victims|);
    }
  }

  lemma IdleTurn(s: Stream, h: seq<EventBody>, rows: nat, bytes: nat, maxRows: nat, maxBytes: nat)
    requires Holds(s, h) && rows < maxRows && bytes < maxBytes
    ensures Turn(s, s, h, s.floor, rows, bytes, rows, bytes, maxRows, maxBytes)
  {
    assert Numbered(h, s.floor, s.floor) == [];
  }

  // The rows that a stream gives up in its turn.
  ghost function TurnVictims(t: Tables, id: string, p: Pass, maxRows: nat, maxBytes: nat, at: int): seq<StoredEvent>
    requires id in p.streams && p.rows < maxRows && p.bytes < maxBytes
  {
    var s, acks := p.streams[id], AckRows(t, id, at);
    if acks == {} then [] else Victims(s, LowestAck(acks, s.current), maxRows - p.rows, maxBytes - p.bytes)
  }

  lemma CompactStreamTakes(t: Tables, id: string, p: Pass, maxRows: nat, maxBytes: nat, at: int)
    requires id in p.streams && p.rows < maxRows && p.bytes < maxBytes
    ensures var victims := TurnVictims(t, id, p, maxRows, maxBytes, at);
            var p' := CompactStream(t, id, p, maxRows, maxBytes, at);
            && p'.streams == p.streams[id := WithoutVictims(p.streams[id], victims)]
            && p'.rows == p.rows + |victims| && p'.bytes == p.bytes + TotalBytes(victims)
  {
    assert p.streams == p.streams[id := p.streams[id]];
  }

  lemma TurnVictimsExact(t: Tables, id: string, p: Pass, h: seq<EventBody>, maxRows: nat, maxBytes: nat, at: int)
    requires id in p.streams && p.rows < maxRows && p.bytes < maxBytes && Holds(p.streams[id], h)
    ensures var s, victims := p.streams[id], TurnVictims(t, id, p, maxRows, maxBytes, at);
            Turn(s, WithoutVictims(s, victims), h, Safe(t, id, s, at), p.rows, p.bytes, p.rows + |victims|,
                 p.bytes + TotalBytes(victims), maxRows, maxBytes)
  {
    var s, acks := p.streams[id], AckRows(t, id, at);
    if acks == {} {
      IdleTurn(s, h, p.rows, p.bytes, maxRows, maxBytes);
    } else {
      LowTurn(s, h, LowestAck(acks, s.current), p.rows, p.bytes, maxRows, maxBytes);
    }
  }

  lemma LowTurn(s: Stream, h: seq<EventBody>, low: nat, rows: nat, bytes: nat, maxRows: nat, maxBytes: nat)
    requires Holds(s, h) && low <= s.current && rows < maxRows && bytes < maxBytes
    ensures var victims := Victims(s, low, maxRows - rows, maxBytes - bytes);
            Turn(s, WithoutVictims(s, victims), h, if low <= s.floor then s.floor else low, rows, bytes,
                 rows + |victims|, bytes + TotalBytes(victims), maxRows, maxBytes)
  {
    if low > s.floor {
      DeletingTurn(s, h, low, rows, bytes, maxRows, maxBytes);
    } else {
      IdleTurn(s, h, rows, bytes, maxRows, maxBytes);
      NoVictims(s, low, maxRows - rows, maxBytes - bytes);
    }
  }

  lemma NoVictims(s: Stream, low: nat, rowBudget: nat, byteBudget: nat)
    ensures low <= s.floor ==> Victims(s, low, rowBudget, byteBudget) == []
  {
  }

  lemma CompactStreamExact(t: Tables, id: string, p: Pass, h: map<string, seq<EventBody>>,
                           maxRows: nat, maxBytes: nat, at: int)
    requires AllHold(p.streams, h) && id in p.streams && p.rows < maxRows && p.bytes < maxBytes
    ensures var s := p.streams[id];
            var p' := CompactStream(t, id, p, maxRows, maxBytes, at);
            && p'.streams.Keys == p.streams.Keys
            && p'.streams == p.streams[id := p'.streams[id]]
            && Turn(s, p'.streams[id], h[id], Safe(t, id, s, at), p.rows, p.bytes, p'.rows, p'.bytes, maxRows, maxBytes)
  {
    CompactStreamTakes(t, id, p, maxRows, maxBytes, at);
    TurnVictimsExact(t, id, p, h[id], maxRows, maxBytes, at);
  }

  // ----- A whole pass -----

  ghost predicate AllAdvanced(streams: map<string, Stream>, streams': map<string, Stream>,
        h: map<string, seq<EventBody>>) {
    && streams'.Keys == streams.Keys
    && forall id :: id in streams ==> id in h && Advanced(streams[id], streams'[id], h[id])
  }

  // No floor is past what the usable credentials had acknowledged.
  ghost predicate WithinSafe(t: Tables, streams: map<string, Stream>, streams': map<string, Stream>, at: int)
    requires forall id :: id in streams ==> id in streams' && streams[id].floor <= streams[id].current
  {
    forall id :: id in streams ==> streams'[id].floor <= Safe(t, id, streams[id], at)
  }

  lemma SafeAfterTurn(t: Tables, id: string, s: Stream, s': Stream, at: int)
    requires s.floor <= s.current == s'.current && s.floor <= s'.floor <= Safe(t, id, s, at)
    ensures Safe(t, id, s', at) == Safe(t, id, s, at)
  {
  }

  lemma AdvanceInSteps(t: Tables, before: map<string, Stream>, mid: map<string, Stream>, after: map<string, Stream>,
                       h: map<string, seq<EventBody>>, at: int)
    requires AllAdvanced(before, mid, h) && AllAdvanced(mid, after, h)
    requires WithinSafe(t, before, mid, at) && WithinSafe(t, mid, after, at)
    ensures AllAdvanced(before, after, h) && WithinSafe(t, before, after, at)
  {
    forall id | id in before
      ensures Advanced(before[id], after[id], h[id]) && after[id].floor <= Safe(t, id, before[id], at)
    {
      assert Advanced(before[id], mid[id], h[id]) && Advanced(mid[id], after[id], h[id]);
      SafeAfterTurn(t, id, before[id], mid[id], at);
    }
  }

  lemma TurnAdvances(t: Tables, id: string, p: Pass, h: map<string, seq<EventBody>>, maxRows: nat, maxBytes: nat,
        at: int)
    requires AllHold(p.streams, h) && id in p.streams && p.rows < maxRows && p.bytes < maxBytes
    ensures var q := CompactStream(t, id, p, maxRows, maxBytes, at);
            && AllAdvanced(p.streams, q.streams, h) && WithinSafe(t, p.streams, q.streams, at)
            && p.rows <= q.rows <= maxRows && p.bytes <= q.bytes <= maxBytes
  {
    CompactStreamExact(t, id, p, h, maxRows, maxBytes, at);
  }

  // Every stream advances, and never past what its usable credentials have acknowledged.
  lemma {:induction false} PassAdvances(t: Tables, order: seq<string>, p: Pass, h: map<string, seq<EventBody>>,
                                        maxRows: nat, maxBytes: nat, at: int)
    requires AllHold(p.streams, h) && forall id :: id in order ==> id in p.streams
    requires p.rows <= maxRows && p.bytes <= maxBytes
    ensures var p' := CompactFrom(t, order, p, maxRows, maxBytes, at);
            && AllAdvanced(p.streams, p'.streams, h) && WithinSafe(t, p.streams, p'.streams, at)
            && p.rows <= p'.rows <= maxRows && p.bytes <= p'.bytes <= maxBytes
    decreases |order|
  {
    if order != [] && p.rows < maxRows && p.bytes < maxBytes {
      var q := CompactStream(t, order[0], p, maxRows, maxBytes, at);
      TurnAdvances(t, order[0], p, h, maxRows, maxBytes, at);
      PassAdvances(t, order[1..], q, h, maxRows, maxBytes, at);
      AdvanceInSteps(t, p.streams, q.streams, CompactFrom(t, order[1..], q, maxRows, maxBytes, at).streams, h, at);
    }
  }

  // Rows and bytes kept by the streams of `order`, counted from their floors.
  function RowCount(streams: map<string, Stream>, order: seq<string>): int
    requires forall id :: id in order ==> id in streams
  {
    if order == [] then 0
    else streams[order[0]].current - streams[order[0]].floor + RowCount(streams, order[1..])
  }

  ghost function ByteCount(streams: map<string, Stream>, h: map<string, seq<EventBody>>, order: seq<string>): int
    requires AllHold(streams, h) && forall id :: id in order ==> id in streams
  {
    if order == [] then 0
    else
      var s := streams[order[0]];
      TotalBytes(Numbered(h[order[0]], s.floor, s.current)) + ByteCount(streams, h, order[1..])
  }

  lemma {:induction false} CountsFrame(streams: map<string, Stream>, streams': map<string, Stream>,
                                       h: map<string, seq<EventBody>>, order: seq<string>)
    requires AllHold(streams, h) && AllHold(streams', h)
    requires forall id :: id in order ==> id in streams && id in streams' && streams[id] == streams'[id]
    ensures RowCount(streams, order) == RowCount(streams', order)
    ensures ByteCount(streams, h, order) == ByteCount(streams', h, order)
  {
    if order != [] {
      CountsFrame(streams, streams', h, order[1..]);
    }
  }

  lemma TurnAccounts(s: Stream, s': Stream, h: seq<EventBody>)
    requires Advanced(s, s', h)
    ensures TotalBytes(Numbered(h, s.floor, s.current))
         == TotalBytes(Numbered(h, s.floor, s'.floor)) + TotalBytes(Numbered(h, s'.floor, s'.current))
  {
    TotalBytesSplit(Numbered(h, s.floor, s'.floor), Numbered(h, s'.floor, s'.current));
    assert Numbered(h, s.floor, s'.floor) + Numbered(h, s'.floor, s'.current) == Numbered(h, s.floor, s.current);
  }

  // A pass touches only the streams it visits.
  lemma {:induction false} PassFrame(t: Tables, order: seq<string>, p: Pass, maxRows: nat, maxBytes: nat, at: int)
    requires forall id :: id in order ==> id in p.streams
    ensures var p' := CompactFrom(t, order, p, maxRows, maxBytes, at);
            && p'.streams.Keys == p.streams.Keys
            && (forall id :: id in p.streams && id !in order ==> p'.streams[id] == p.streams[id])
    decreases |order|
  {
    if order != [] && p.rows < maxRows && p.bytes < maxBytes {
      PassFrame(t, order[1..], CompactStream(t, order[0], p, maxRows, maxBytes, at), maxRows, maxBytes, at);
    }
  }

  // Conservation: the reported rows and bytes are exactly what left the journal.
  lemma {:induction false} PassAccounts(t: Tables, order: seq<string>, p: Pass, h: map<string, seq<EventBody>>,
                                        maxRows: nat, maxBytes: nat, at: int)
    requires AllHold(p.streams, h) && forall id :: id in order ==> id in p.streams
    requires forall i, j :: 0 <= i < j < |order| ==> order[i] != order[j]
    ensures var p' := CompactFrom(t, order, p, maxRows, maxBytes, at);
            && AllHold(p'.streams, h) && (forall id :: id in order ==> id in p'.streams)
            && p'.rows - p.rows == RowCount(p.streams, order) - RowCount(p'.streams, order)
            && p'.bytes - p.bytes == ByteCount(p.streams, h, order) - ByteCount(p'.streams, h, order)
    decreases |order|
  {
    if order != [] && p.rows < maxRows && p.bytes < maxBytes {
      var id, rest := order[0], order[1..];
      var q := CompactStream(t, id, p, maxRows, maxBytes, at);
      CompactStreamExact(t, id, p, h, maxRows, maxBytes, at);
      assert AllHold(q.streams, h);
      TurnAccounts(p.streams[id], q.streams[id], h[id]);
      CountsFrame(p.streams, q.streams, h, rest) by {
        assert id !in rest;
      }
      PassAccounts(t, rest, q, h, maxRows, maxBytes, at);
      PassFrame(t, rest, q, maxRows, maxBytes, at);
      var p' := CompactFrom(t, rest, q, maxRows, maxBytes, at);
      assert p'.streams[id] == q.streams[id];
      assert p' == CompactFrom(t, order, p, maxRows, maxBytes, at);
    }
  }

  // A stream that a pass with an empty tally cannot advance.
  ghost predicate Stuck(t: Tables, id: string, s: Stream, h: seq<EventBody>, maxBytes: nat, at: int)
    requires Holds(s, h)
  {
    Safe(t, id, s, at) == s.floor || h[s.floor].bytes > maxBytes
  }

  lemma FirstTurnExact(t: Tables, id: string, p: Pass, h: map<string, seq<EventBody>>,
                       maxRows: nat, maxBytes: nat, at: int)
    requires AllHold(p.streams, h) && id in p.streams
    requires p.rows == p.bytes == 0 && maxRows > 0 && maxBytes > 0
    ensures var q := CompactStream(t, id, p, maxRows, maxBytes, at);
            && (q.rows == 0 <==> Stuck(t, id, p.streams[id], h[id], maxBytes, at))
            && (q.rows == 0 ==> q.bytes == 0 && q.streams == p.streams)
            && q.rows <= maxRows && q.bytes <= maxBytes && AllHold(q.streams, h)
  {
    CompactStreamExact(t, id, p, h, maxRows, maxBytes, at);
    FirstRowDecides(p.streams[id].floor, CompactStream(t, id, p, maxRows, maxBytes, at).streams[id].floor, h[id]);
  }

  // The bytes of a run of rows are none when it is empty and include its first row when it is not.
  lemma FirstRowDecides(floor: nat, floor': nat, h: seq<EventBody>)
    requires floor <= floor' <= |h|
    ensures floor == floor' ==> TotalBytes(Numbered(h, floor, floor')) == 0
    ensures floor < |h| ==> TotalBytes(Numbered(h, floor, floor + 1)) == h[floor].bytes
    ensures floor < floor' ==> TotalBytes(Numbered(h, floor, floor')) >= h[floor].bytes
  {
    if floor < |h| {
      var first := Numbered(h, floor, floor + 1);
      assert first[..0] == [];
      if floor < floor' {
        TotalBytesSplit(first, Numbered(h, floor + 1, floor'));
        assert first + Numbered(h, floor + 1, floor') == Numbered(h, floor, floor');
      }
    }
  }

  // A pass deletes nothing exactly when no stream can give up even its first row.
  lemma {:induction false} NoProgressExactly(t: Tables, order: seq<string>, p: Pass, h: map<string, seq<EventBody>>,
                                             maxRows: nat, maxBytes: nat, at: int)
    requires AllHold(p.streams, h) && forall id :: id in order ==> id in p.streams
    requires p.rows == p.bytes == 0 && maxRows > 0 && maxBytes > 0
    ensures CompactFrom(t, order, p, maxRows, maxBytes, at).rows == 0
       <==> forall id :: id in order ==> Stuck(t, id, p.streams[id], h[id], maxBytes, at)
    decreases |order|
  {
    if order != [] {
      var id, rest := order[0], order[1..];
      var q := CompactStream(t, id, p, maxRows, maxBytes, at);
      FirstTurnExact(t, id, p, h, maxRows, maxBytes, at);
      assert forall other :: other in order <==> other == id || other in rest;
      if q.rows == 0 {
        NoProgressExactly(t, rest, q, h, maxRows, maxBytes, at);
      } else {
        PassAdvances(t, rest, q, h, maxRows, maxBytes, at);
      }
    }
  }

  // ----- Every run -----

  ghost function Histories(ops: seq<Op>): map<string, seq<EventBody>> {
    map id | id in Run(ops).streams :: History(ops, id)
  }

  lemma {:induction false} AppendHolds(s: Stream, h: seq<EventBody>, body: EventBody)
    requires Holds(s, h)
    ensures Holds(Stream(s.current + 1, s.floor, s.events[s.current + 1 := body]), h + [body])
  {
  }

  lemma {:induction false} NoHistoryBeforeCreation(ops: seq<Op>, id: string)
    requires id !in Run(ops).streams
    ensures History(ops, id) == []
  {
    if ops != [] {
      if ops[|ops| - 1].Compact? {
        CompactKeys(Run(ops[..|ops| - 1]), ops[|ops| - 1]);
      }
      NoHistoryBeforeCreation(ops[..|ops| - 1], id);
    }
  }

  lemma CompactKeys(t: Tables, op: Op)
    requires op.Compact?
    ensures Apply(t, op).streams.Keys == t.streams.Keys
  {
    if t.writable && Enumerates(op.order, t.streams) && GoodBudget(op.maxRows, op.maxBytes) {
      CompactFromKeys(t, op.order, Pass(t.streams, 0, 0, []), op.maxRows, op.maxBytes, op.at);
    }
  }

  lemma {:induction false} CompactFromKeys(t: Tables, order: seq<string>, p: Pass, maxRows: nat, maxBytes: nat, at: int)
    requires forall id :: id in order ==> id in p.streams
    ensures CompactFrom(t, order, p, maxRows, maxBytes, at).streams.Keys == p.streams.Keys
    decreases |order|
  {
    if order != [] && p.rows < maxRows && p.bytes < maxBytes {
      CompactFromKeys(t, order[1..], CompactStream(t, order[0], p, maxRows, maxBytes, at), maxRows, maxBytes, at);
    }
  }

  lemma AppendKeeps(t: Tables, h: map<string, seq<EventBody>>, id: string, body: EventBody)
    requires AllHold(t.streams, h) && CanAppend(t, id, body)
    ensures AllHold(Apply(t, Append(id, body)).streams, h[id := h[id] + [body]])
  {
    AppendHolds(t.streams[id], h[id], body);
  }

  lemma AppendHistories(before: seq<Op>, id: string, body: EventBody)
    ensures var h, h' := Histories(before), Histories(before + [Append(id, body)]);
            h' == if CanAppend(Run(before), id, body) then h[id := History(before, id) + [body]] else h
  {
    var ops := before + [Append(id, body)];
    assert ops[..|ops| - 1] == before;
    forall other ensures History(ops, other)
                         == if other == id && CanAppend(Run(before), id, body) then History(before, id) + [body]
                            else History(before, other) {
    }
  }

  lemma AppendExact(before: seq<Op>, id: string, body: EventBody)
    requires AllHold(Run(before).streams, Histories(before))
    ensures AllHold(Run(before + [Append(id, body)]).streams, Histories(before + [Append(id, body)]))
  {
    var t, ops := Run(before), before + [Append(id, body)];
    assert ops[..|ops| - 1] == before;
    AppendHistories(before, id, body);
    if CanAppend(t, id, body) {
      AppendKeeps(t, Histories(before), id, body);
    } else {
      assert Apply(t, Append(id, body)).streams == t.streams;
    }
  }

  lemma CompactExact(before: seq<Op>, op: Op)
    requires op.Compact? && AllHold(Run(before).streams, Histories(before))
    ensures AllHold(Run(before + [op]).streams, Histories(before + [op]))
  {
    var ops := before + [op];
    assert ops[..|ops| - 1] == before;
    CompactHolds(Run(before), op, Histories(before));
    CompactHistories(before, op);
  }

  lemma CompactHistories(before: seq<Op>, op: Op)
    requires op.Compact?
    ensures Histories(before + [op]) == Histories(before)
  {
    var ops := before + [op];
    assert ops[..|ops| - 1] == before;
    CompactKeys(Run(before), op);
    forall id ensures History(ops, id) == History(before, id) {
    }
  }

  lemma CompactHolds(t: Tables, op: Op, h: map<string, seq<EventBody>>)
    requires op.Compact? && AllHold(t.streams, h)
    ensures Apply(t, op).streams.Keys == t.streams.Keys && AllHold(Apply(t, op).streams, h)
  {
    CompactKeys(t, op);
    if t.writable && Enumerates(op.order, t.streams) && GoodBudget(op.maxRows, op.maxBytes) {
      PassHolds(t, op.order, h, op.maxRows, op.maxBytes, op.at);
    }
  }

  lemma PassHolds(t: Tables, order: seq<string>, h: map<string, seq<EventBody>>, maxRows: nat, maxBytes: nat, at: int)
    requires AllHold(t.streams, h) && Enumerates(order, t.streams)
    ensures AllHold(CompactPass(t, order, maxRows, maxBytes, at).streams, h)
  {
    PassAdvances(t, order, Pass(t.streams, 0, 0, []), h, maxRows, maxBytes, at);
  }

  lemma OtherExact(before: seq<Op>, op: Op)
    requires !op.Append? && !op.Compact? && AllHold(Run(before).streams, Histories(before))
    ensures AllHold(Run(before + [op]).streams, Histories(before + [op]))
  {
    var t, ops := Run(before), before + [op];
    assert ops[..|ops| - 1] == before;
    forall id | id in Run(ops).streams ensures Holds(Run(ops).streams[id], History(ops, id)) {
      if id in t.streams {
        assert Histories(before)[id] == History(before, id);
      } else {
        NoHistoryBeforeCreation(before, id);
      }
    }
  }

  // Over every run, each stream holds exactly the events with cursors in (floor, current] of
  // everything ever appended to it, and its current cursor counts those appends.
  lemma {:induction false} JournalExact(ops: seq<Op>)
    ensures AllHold(Run(ops).streams, Histories(ops))
  {
    if ops != [] {
      var before, op := ops[..|ops| - 1], ops[|ops| - 1];
      assert before + [op] == ops;
      JournalExact(before);
      match op
      case Append(id, body) => AppendExact(before, id, body);
      case Compact(_, _, _, _) => CompactExact(before, op);
      case _ => OtherExact(before, op);
    }
  }
}
