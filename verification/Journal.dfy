// The durable event journal: append-only streams, acknowledged cursors, and the compactor that
// deletes an acknowledged prefix of each stream under a row budget and a byte budget.
module Journal {
  import opened Wrappers
  import Cursors

  const MAX_EVENT_COMPACTION_ROWS := 1000
  const MAX_EVENT_COMPACTION_BYTES := 4 * 1024 * 1024

  datatype StoreError = NotFound | Conflict | Io | ReadOnly

  datatype EventBody = EventBody(eventId: string, kind: string, payload: string, bytes: nat)

  datatype StoredEvent = StoredEvent(cursor: nat, body: EventBody)

  // A row of `streams` together with its rows of `events`, keyed by their cursor column.
  datatype Stream = Stream(current: nat, floor: nat, events: map<nat, EventBody>)

  datatype Credential = Credential(revoked: bool, expiresAt: Option<int>) {
    predicate Usable(at: int) {
      !revoked && (expiresAt.None? || expiresAt.value > at)
    }
  }

  // `writable` is the latch that a failed statement turns off.
  datatype Tables = Tables(
    streams: map<string, Stream>,
    acks: map<(string, string), nat>,
    credentials: map<string, Credential>,
    writable: bool)

  const EMPTY := Tables(map[], map[], map[], true)

  datatype Compaction = Compaction(deletedRows: nat, deletedBytes: nat, blocked: seq<string>)

  datatype Pass = Pass(streams: map<string, Stream>, rows: nat, bytes: nat, blocked: seq<string>)

  // ----- Queries -----

  // SELECT ... WHERE cursor > after AND cursor <= through ORDER BY cursor.
  function Select(events: map<nat, EventBody>, after: nat, through: nat): seq<StoredEvent>
    decreases through
  {
    if through <= after then []
    else
      var row := if through in events then [StoredEvent(through, events[through])] else [];
      Select(events, after, through - 1) + row
  }

  predicate EventIdTaken(streams: map<string, Stream>, eventId: string) {
    exists id | id in streams :: IdIn(streams[id].events, eventId)
  }

  predicate IdIn(events: map<nat, EventBody>, eventId: string) {
    exists c | c in events :: events[c].eventId == eventId
  }

  // Acknowledgements that may authorise deletion: cursor rows of usable credentials.
  function AckRows(t: Tables, id: string, at: int): set<nat> {
    set k | k in t.acks && k.1 == id && k.0 in t.credentials && t.credentials[k.0].Usable(at) :: t.acks[k]
  }

  // The least acknowledgement, clamped to the stream's current cursor.
  ghost function LowestAck(acks: set<nat>, current: nat): (low: nat)
    ensures low <= current && forall a :: a in acks ==> low <= a
    ensures low == current || low in acks
  {
    if acks == {} then current
    else
      var first :| first in acks;
      var rest := LowestAck(acks - {first}, current);
      assert forall a :: a in acks ==> a == first || a in acks - {first};
      if first < rest then first else rest
  }

  function TotalBytes(rows: seq<StoredEvent>): nat {
    if rows == [] then 0 else TotalBytes(rows[..|rows| - 1]) + rows[|rows| - 1].body.bytes
  }

  // How many leading rows fit the byte budget.
  function FitCount(rows: seq<StoredEvent>, budget: int): (n: nat)
    ensures n <= |rows|
  {
    if rows == [] || rows[0].body.bytes > budget then 0
    else 1 + FitCount(rows[1..], budget - rows[0].body.bytes)
  }

  function Limit(rows: seq<StoredEvent>, n: nat): seq<StoredEvent> {
    if |rows| <= n then rows else rows[..n]
  }

  // The rows one stream gives up: the longest run from the floor within both budgets.
  function Victims(s: Stream, safe: nat, rowBudget: nat, byteBudget: nat): seq<StoredEvent> {
    var candidates := Limit(Select(s.events, s.floor, safe), rowBudget);
    candidates[..FitCount(candidates, byteBudget)]
  }

  // The range delete up to `greatest` and the floor update that share a transaction.
  function Truncate(s: Stream, greatest: nat): Stream {
    var candidateFloor := if s.floor > greatest then s.floor else greatest;
    Stream(s.current,
           if candidateFloor > s.current then s.current else candidateFloor,
           map c | c in s.events && !(s.floor < c <= greatest) :: s.events[c])
  }

  ghost function CompactStream(t: Tables, id: string, p: Pass, maxRows: nat, maxBytes: nat, at: int): Pass
    requires id in p.streams && p.rows < maxRows && p.bytes < maxBytes
  {
    var s := p.streams[id];
    var acks := AckRows(t, id, at);
    if acks == {} then
      if s.events.Keys == {} then p else p.(blocked := p.blocked + [id])
    else
      var rows := Victims(s, LowestAck(acks, s.current), maxRows - p.rows, maxBytes - p.bytes);
      if rows == [] then p
      else Pass(p.streams[id := Truncate(s, rows[|rows| - 1].cursor)],
                p.rows + |rows|, p.bytes + TotalBytes(rows), p.blocked)
  }

  ghost function CompactFrom(t: Tables, order: seq<string>, p: Pass, maxRows: nat, maxBytes: nat, at: int): Pass
    requires forall id :: id in order ==> id in p.streams
  {
    if order == [] || p.rows >= maxRows || p.bytes >= maxBytes then p
    else CompactFrom(t, order[1..], CompactStream(t, order[0], p, maxRows, maxBytes, at), maxRows, maxBytes, at)
  }

  // The streams in the order of ORDER BY stream_id. Nothing below depends on which order it is.
  ghost predicate Enumerates(order: seq<string>, streams: map<string, Stream>) {
    && (forall id :: id in streams <==> id in order)
    && (forall i, j :: 0 <= i < j < |order| ==> order[i] != order[j])
  }

  ghost function CompactPass(t: Tables, order: seq<string>, maxRows: nat, maxBytes: nat, at: int): Pass
    requires Enumerates(order, t.streams)
  {
    CompactFrom(t, order, Pass(t.streams, 0, 0, []), maxRows, maxBytes, at)
  }

  predicate GoodBudget(maxRows: int, maxBytes: int) {
    1 <= maxRows <= MAX_EVENT_COMPACTION_ROWS && 1 <= maxBytes <= MAX_EVENT_COMPACTION_BYTES
  }

  predicate CanAppend(t: Tables, id: string, body: EventBody) {
    t.writable && id in t.streams && !EventIdTaken(t.streams, body.eventId)
  }

  // ----- The store -----

  class BridgeStore {
    var streams: map<string, Stream>
    var acks: map<(string, string), nat>
    var credentials: map<string, Credential>
    var writable: bool

    function Contents(): Tables
      reads this
    {
      Tables(streams, acks, credentials, writable)
    }

    constructor ()
      ensures Contents() == EMPTY
    {
      streams, acks, credentials, writable := map[], map[], map[], true;
    }

    method EnsureStream(id: string) returns (r: Result<(), StoreError>)
      modifies this`streams
      ensures Contents() == Apply(old(Contents()), CreateStream(id))
      ensures r.Err? <==> !writable
    {
      if !writable { return Err(ReadOnly); }
      if id !in streams {
        streams := streams[id := Stream(0, 0, map[])];
      }
      r := Ok(());
    }

    method AppendEvent(id: string, body: EventBody) returns (r: Result<StoredEvent, StoreError>)
      modifies this`streams, this`writable
      ensures Contents() == Apply(old(Contents()), Append(id, body))
      ensures r.Ok? <==> CanAppend(old(Contents()), id, body)
      ensures r.Ok? ==> r.value == StoredEvent(streams[id].current, body)
      ensures r.Err? ==> streams == old(streams)
    {
      if !writable { return Err(ReadOnly); }
      if id !in streams { return Err(NotFound); }
      if EventIdTaken(streams, body.eventId) {
        writable := false;
        return Err(Io);
      }
      var stream := streams[id];
      var cursor := stream.current + 1;
      streams := streams[id := Stream(cursor, stream.floor, stream.events[cursor := body])];
      r := Ok(StoredEvent(cursor, body));
    }

    // The cursor is checked for canonical form and for nothing else: it may be above the
    // stream's position, and it may be below an earlier acknowledgement.
    method AckCursor(installation: string, id: string, cursor: string) returns (r: Result<(), StoreError>)
      modifies this`acks, this`writable
      ensures !Cursors.Canonical(cursor) ==> r == Err(Conflict) && Contents() == old(Contents())
      ensures Cursors.Canonical(cursor) ==>
                Contents() == Apply(old(Contents()), Ack(installation, id, Cursors.Parse(cursor)))
      ensures Cursors.Canonical(cursor) ==>
                r == if !old(writable) then Err(ReadOnly) else if id !in streams then Err(Io) else Ok(())
      ensures r.Ok? ==> acks == old(acks)[(installation, id) := Cursors.Parse(cursor)] && writable == old(writable)
      ensures r.Err? ==> acks == old(acks)
    {
      if !Cursors.Canonical(cursor) { return Err(Conflict); }
      if !writable { return Err(ReadOnly); }
      if id !in streams {
        writable := false;
        return Err(Io);
      }
      acks := acks[(installation, id) := Cursors.Parse(cursor)];
      r := Ok(());
    }

    method SaveCredential(installation: string, credential: Credential)
      modifies this`credentials
      ensures Contents() == Apply(old(Contents()), SetCredential(installation, credential))
    {
      if writable {
        credentials := credentials[installation := credential];
      }
    }

    method StreamPosition(id: string) returns (r: Option<(nat, nat)>)
      ensures r == if id in streams then Some((streams[id].current, streams[id].floor)) else None
    {
      r := if id in streams then Some((streams[id].current, streams[id].floor)) else None;
    }

    method ReadReplay(id: string, after: nat)
      returns (r: Result<(nat, nat, seq<StoredEvent>), StoreError>)
      ensures writable && id in streams ==>
                r == Ok((streams[id].current, streams[id].floor,
                         Select(streams[id].events, after, streams[id].current)))
      ensures !writable ==> r == Err(ReadOnly)
      ensures writable && id !in streams ==> r == Err(NotFound)
    {
      if !writable { return Err(ReadOnly); }
      if id !in streams { return Err(NotFound); }
      var s := streams[id];
      r := Ok((s.current, s.floor, Select(s.events, after, s.current)));
    }

    // acknowledgements.reduce(minimum, current)
    method SafeCursor(rows: set<nat>, current: nat) returns (safe: nat)
      ensures safe == LowestAck(rows, current)
    {
      safe := current;
      var rest := rows;
      while rest != {}
        invariant rest <= rows
        invariant safe <= current && (safe == current || safe in rows)
        invariant forall a :: a in rows && a !in rest ==> safe <= a
        decreases rest
      {
        var a :| a in rest;
        if a < safe { safe := a; }
        rest := rest - {a};
      }
    }

    method SelectVictims(s: Stream, safe: nat, rowBudget: nat, byteBudget: nat)
      returns (selected: seq<StoredEvent>, selectedBytes: nat)
      ensures selected == Victims(s, safe, rowBudget, byteBudget)
      ensures selectedBytes == TotalBytes(selected)
    {
      var candidates := Limit(Select(s.events, s.floor, safe), rowBudget);
      var n := 0;
      selected, selectedBytes := [], 0;
      while n < |candidates|
        invariant 0 <= n <= |candidates| && selected == candidates[..n]
        invariant selectedBytes == TotalBytes(selected)
        invariant FitCount(candidates, byteBudget) == n + FitCount(candidates[n..], byteBudget - selectedBytes)
      {
        if selectedBytes + candidates[n].body.bytes > byteBudget { break; }
        assert candidates[n..][1..] == candidates[n + 1..];
        selected := selected + [candidates[n]];
        assert selected[..n] == candidates[..n];
        selectedBytes := selectedBytes + candidates[n].body.bytes;
        n := n + 1;
      }
    }

    // One stream's turn in a pass that has so far deleted `rows` rows of `bytes` bytes.
    method CompactOne(ghost t: Tables, id: string, rows: nat, bytes: nat, blocked: seq<string>,
                      maxRows: nat, maxBytes: nat, at: int)
      returns (rows': nat, bytes': nat, blocked': seq<string>)
      requires t.acks == acks && t.credentials == credentials
      requires id in streams && rows < maxRows && bytes < maxBytes
      modifies this`streams
      ensures Pass(streams, rows', bytes', blocked')
           == CompactStream(t, id, Pass(old(streams), rows, bytes, blocked), maxRows, maxBytes, at)
    {
      rows', bytes', blocked' := rows, bytes, blocked;
      var stream := streams[id];
      var acknowledgements := AckRows(Contents(), id, at);
      assert acknowledgements == AckRows(t, id, at);
      if acknowledgements == {} {
        if stream.events.Keys != {} { blocked' := blocked + [id]; }
        return;
      }
      var safe := SafeCursor(acknowledgements, stream.current);
      if safe <= stream.floor { return; }
      var selected, selectedBytes := SelectVictims(stream, safe, maxRows - rows, maxBytes - bytes);
      if |selected| == 0 { return; }
      var greatest := selected[|selected| - 1].cursor;
      streams := streams[id := Truncate(stream, greatest)];
      rows', bytes' := rows + |selected|, bytes + selectedBytes;
    }

    method CompactLegacyEvents(order: seq<string>, maxRows: int, maxBytes: int, at: int)
      returns (r: Result<Compaction, StoreError>)
      requires Enumerates(order, streams)
      modifies this`streams
      ensures r == Err(Conflict) <==> !(1 <= maxRows <= 1000 && 1 <= maxBytes <= 4_194_304)
      ensures GoodBudget(maxRows, maxBytes) && !writable ==> r == Err(ReadOnly)
      ensures r.Err? ==> Contents() == old(Contents())
      ensures GoodBudget(maxRows, maxBytes) && writable ==>
                var p := CompactPass(old(Contents()), order, maxRows, maxBytes, at);
                streams == p.streams && r == Ok(Compaction(p.rows, p.bytes, p.blocked))
    {
      if !GoodBudget(maxRows, maxBytes) { return Err(Conflict); }
      if !writable { return Err(ReadOnly); }
      ghost var t := Contents();
      var rows: nat, bytes: nat, blocked := 0, 0, [];
      var i := 0;
      while i < |order|
        invariant 0 <= i <= |order| && forall id :: id in order ==> id in streams
        invariant CompactFrom(t, order[i..], Pass(streams, rows, bytes, blocked), maxRows, maxBytes, at)
               == CompactPass(t, order, maxRows, maxBytes, at)
      {
        if rows >= maxRows || bytes >= maxBytes { break; }
        assert order[i..][0] == order[i] && order[i..][1..] == order[i + 1..];
        rows, bytes, blocked := CompactOne(t, order[i], rows, bytes, blocked, maxRows, maxBytes, at);
        i := i + 1;
      }
      r := Ok(Compaction(rows, bytes, blocked));
    }
  }

  // ----- Runs -----

  datatype Op =
    | CreateStream(id: string)
    | Append(id: string, body: EventBody)
    | Ack(installation: string, id: string, cursor: nat)
    | SetCredential(installation: string, credential: Credential)
    | Compact(order: seq<string>, maxRows: int, maxBytes: int, at: int)

  ghost function Apply(t: Tables, op: Op): Tables {
    if !t.writable then t
    else match op
      case CreateStream(id) =>
        if id in t.streams then t else t.(streams := t.streams[id := Stream(0, 0, map[])])
      case Append(id, body) =>
        if id !in t.streams then t
        else if EventIdTaken(t.streams, body.eventId) then t.(writable := false)
        else
          var s := t.streams[id];
          t.(streams := t.streams[id := Stream(s.current + 1, s.floor, s.events[s.current + 1 := body])])
      case Ack(installation, id, cursor) =>
        if id !in t.streams then t.(writable := false)
        else t.(acks := t.acks[(installation, id) := cursor])
      case SetCredential(installation, credential) =>
        t.(credentials := t.credentials[installation := credential])
      case Compact(order, maxRows, maxBytes, at) =>
        if !Enumerates(order, t.streams) || !GoodBudget(maxRows, maxBytes) then t
        else t.(streams := CompactPass(t, order, maxRows, maxBytes, at).streams)
  }

  ghost function Run(ops: seq<Op>): Tables {
    if ops == [] then EMPTY else Apply(Run(ops[..|ops| - 1]), ops[|ops| - 1])
  }

  // Everything ever appended to a stream in a run: the journal as if nothing were compacted.
  ghost function History(ops: seq<Op>, id: string): seq<EventBody> {
    if ops == [] then []
    else
      var before := ops[..|ops| - 1];
      var op := ops[|ops| - 1];
      var appended := op.Append? && op.id == id && CanAppend(Run(before), id, op.body);
      History(before, id) + (if appended then [op.body] else [])
  }
}
