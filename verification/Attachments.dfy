// Resumable attachments: chunks in order, a hash over the whole, expiry, and streaming back.
// `D` is the type of digests and `sha` the hash; nothing below depends on what the hash is.
module Attachments {
  import opened Wrappers

  newtype Byte = b: int | 0 <= b < 256

  type Bytes = seq<Byte>

  datatype State = Open | Complete | Aborted | Expired

  datatype Chunk = Chunk(offset: nat, data: Bytes)

  // A row of `attachments` with its chunk rows and their blobs.
  datatype Row<D> = Row(
    id: string,
    clientUploadId: string,
    contentType: string,
    declaredBytes: nat,
    receivedBytes: nat,
    chunks: seq<Chunk>,
    state: State,
    expectedHash: Option<D>,
    finalHash: Option<D>,
    expiresAt: int)

  datatype Limits = Limits(
    maxAttachmentBytes: nat, chunkMinBytes: nat, chunkMaxBytes: nat, maxOpen: nat, maxChunks: nat,
    ttlMs: int, completedTtlMs: int)

  datatype Error =
    | BadRequest | TooLarge | BadChunk | BadHash | NotFound | Conflict | Released | Expiry | LimitExceeded | Incomplete
    | IdReused

  datatype BeginKind = Created | Duplicated | Mismatched

  datatype AppendKind = Accepted | Duplicate | OutOfOrder(expectedNextOffset: nat)

  datatype BeginInput<D> = BeginInput(totalBytes: int, contentType: string, hash: Option<D>, clientUploadId: string)

  const RETAIN_MS := 7 * 24 * 60 * 60_000

  // ----- Contents -----

  function Content(chunks: seq<Chunk>): Bytes {
    if chunks == [] then [] else Content(chunks[..|chunks| - 1]) + chunks[|chunks| - 1].data
  }

  // The first row with an id, and the first with a client upload id.
  function Find<D>(rows: seq<Row<D>>, id: string): (i: Option<nat>)
    ensures i.Some? ==> i.value < |rows| && rows[i.value].id == id
  {
    if rows == [] then None
    else
      var n := |rows| - 1;
      var before := Find(rows[..n], id);
      if before.Some? then before else if rows[n].id == id then Some(n) else None
  }

  function FindUpload<D>(rows: seq<Row<D>>, clientUploadId: string): (i: Option<nat>)
    ensures i.Some? ==> i.value < |rows| && rows[i.value].clientUploadId == clientUploadId
  {
    if rows == [] then None
    else
      var n := |rows| - 1;
      var before := FindUpload(rows[..n], clientUploadId);
      if before.Some? then before else if rows[n].clientUploadId == clientUploadId then Some(n) else None
  }

  function OpenCount<D>(rows: seq<Row<D>>): nat {
    if rows == [] then 0
    else
      var n := |rows| - 1;
      OpenCount(rows[..n]) + (if rows[n].state.Open? then 1 else 0)
  }

  function Retained<D>(row: Row<D>): nat {
    if row.state.Open? || row.state.Complete? then row.receivedBytes else 0
  }

  // aggregateRetainedBytes
  function Aggregate<D>(rows: seq<Row<D>>): nat {
    if rows == [] then 0 else Aggregate(rows[..|rows| - 1]) + Retained(rows[|rows| - 1])
  }

  // ----- Operations; an error leaves the tables as they were -----

  predicate Mismatch<D(==)>(existing: Row<D>, input: BeginInput<D>) {
    if existing.expectedHash.Some? && input.hash.Some? then existing.expectedHash != input.hash
    else existing.declaredBytes as int != input.totalBytes || existing.contentType != input.contentType
  }

  function NewRow<D>(c: Limits, input: BeginInput<D>, newId: string, now: int): Row<D>
    requires input.totalBytes > 0
  {
    Row(newId, input.clientUploadId, input.contentType, input.totalBytes, 0, [], Open, input.hash, None, now + c.ttlMs)
  }

  function BeginOf<D(==)>(c: Limits, rows: seq<Row<D>>, input: BeginInput<D>, newId: string, now: int)
    : (seq<Row<D>>, Result<(string, BeginKind), Error>)
  {
    if input.totalBytes <= 0 then (rows, Err(BadRequest))
    else if input.totalBytes > c.maxAttachmentBytes then (rows, Err(TooLarge))
    else
      var existing := if input.clientUploadId == "" then None else FindUpload(rows, input.clientUploadId);
      if existing.Some? then
        var row := rows[existing.value];
        (rows, Ok((row.id, if Mismatch(row, input) then Mismatched else Duplicated)))
      else if OpenCount(rows) >= c.maxOpen then (rows, Err(LimitExceeded))
      else if Find(rows, newId).Some? then (rows, Err(IdReused))
      else (rows + [NewRow(c, input, newId, now)], Ok((newId, Created)))
  }

  function Extended<D>(row: Row<D>, payload: Bytes): Row<D> {
    row.(receivedBytes := row.receivedBytes + |payload|, chunks := row.chunks + [Chunk(row.receivedBytes, payload)])
  }

  function Finalised<D>(c: Limits, row: Row<D>, hash: D, now: int): Row<D> {
    row.(state := Complete, finalHash := Some(hash), expiresAt := now + c.completedTtlMs)
  }

  function AppendTo<D(==)>(c: Limits, sha: Bytes -> D, row: Row<D>, offset: nat, payload: Bytes, now: int)
    : Result<(Row<D>, AppendKind), Error>
  {
    if row.state.Complete? then
      if offset + |payload| == row.declaredBytes || offset + |payload| == row.receivedBytes
      then Ok((row, Duplicate)) else Err(Conflict)
    else if row.state.Aborted? then Err(Released)
    else if row.state.Expired? || row.expiresAt <= now then Err(Expiry)
    else if offset != row.receivedBytes then Ok((row, OutOfOrder(row.receivedBytes)))
    else if row.receivedBytes + |payload| > row.declaredBytes then Err(BadChunk)
    else if |row.chunks| + 1 > c.maxChunks then Err(LimitExceeded)
    else
      var longer := Extended(row, payload);
      if longer.receivedBytes < row.declaredBytes then Ok((longer, Accepted))
      else
        var hash := sha(Content(longer.chunks));
        if row.expectedHash.Some? && row.expectedHash.value != hash then Err(BadHash)
        else Ok((Finalised(c, longer, hash, now), Accepted))
  }

  function AppendOf<D(==)>(c: Limits, sha: Bytes -> D, rows: seq<Row<D>>, id: string, offset: nat,
                           payload: Bytes, contentHash: D, now: int): (seq<Row<D>>, Result<AppendKind, Error>)
  {
    if !(c.chunkMinBytes <= |payload| <= c.chunkMaxBytes) then (rows, Err(BadChunk))
    else if sha(payload) != contentHash then (rows, Err(BadHash))
    else
      var i := Find(rows, id);
      if i.None? then (rows, Err(NotFound))
      else match AppendTo(c, sha, rows[i.value], offset, payload, now)
        case Err(error) => (rows, Err(error))
        case Ok((row, kind)) => (rows[i.value := row], Ok(kind))
  }

  function CompleteRow<D(==)>(c: Limits, sha: Bytes -> D, row: Row<D>, contentHash: Option<D>, now: int)
    : Result<Row<D>, Error>
  {
    if row.state.Complete? then Ok(row)
    else if row.state.Aborted? then Err(Released)
    else if row.state.Expired? || row.expiresAt <= now then Err(Expiry)
    else if row.receivedBytes != row.declaredBytes then Err(Incomplete)
    else
      var hash := sha(Content(row.chunks));
      var expected := if contentHash.Some? then contentHash else row.expectedHash;
      if expected.Some? && expected.value != hash then Err(BadHash) else Ok(Finalised(c, row, hash, now))
  }

  function CompleteOf<D(==)>(c: Limits, sha: Bytes -> D, rows: seq<Row<D>>, id: string, contentHash: Option<D>, now: int)
    : (seq<Row<D>>, Result<(), Error>)
  {
    var i := Find(rows, id);
    if i.None? then (rows, Err(NotFound))
    else match CompleteRow(c, sha, rows[i.value], contentHash, now)
      case Err(error) => (rows, Err(error))
      case Ok(row) => (rows[i.value := row], Ok(()))
  }

  function AbortOf<D>(rows: seq<Row<D>>, id: string, now: int): (seq<Row<D>>, Result<(), Error>) {
    var i := Find(rows, id);
    if i.None? then (rows, Err(NotFound))
    else
      var row := rows[i.value];
      if row.state.Complete? then (rows, Err(Conflict))
      else if row.state.Aborted? then (rows, Ok(()))
      else if row.state.Expired? || row.expiresAt <= now then (rows, Err(Expiry))
      else (rows[i.value := row.(state := Aborted)], Ok(()))
  }

  function RetainOf<D>(rows: seq<Row<D>>, id: string, until: int, now: int): (seq<Row<D>>, Result<(), Error>) {
    var i := Find(rows, id);
    if i.None? || !rows[i.value].state.Complete? then (rows, Err(NotFound))
    else
      var row := rows[i.value];
      var wanted := if until > row.expiresAt then until else row.expiresAt;
      var bounded := if wanted < now + RETAIN_MS then wanted else now + RETAIN_MS;
      (rows[i.value := row.(expiresAt := bounded)], Ok(()))
  }

  // The rows in `state` that have expired become expired.
  function Reap<D>(rows: seq<Row<D>>, state: State, now: int): seq<Row<D>> {
    if rows == [] then []
    else
      var n := |rows| - 1;
      var rest := Reap(rows[..n], state, now);
      if rows[n].state == state && rows[n].expiresAt <= now
      then rest + [rows[n].(state := Expired)]
      else rest + [rows[n]]
  }

  function SweepOf<D>(rows: seq<Row<D>>, now: int): seq<Row<D>> {
    Reap(Reap(rows, Open, now), Complete, now)
  }

  // The ids that one half of the sweep removes, and the bytes that each half reports.
  function Reaped<D>(rows: seq<Row<D>>, state: State, now: int): seq<string> {
    if rows == [] then []
    else
      var n := |rows| - 1;
      var rest := Reaped(rows[..n], state, now);
      if rows[n].state == state && rows[n].expiresAt <= now then rest + [rows[n].id] else rest
  }

  function OpenBytes<D>(rows: seq<Row<D>>, now: int): nat {
    if rows == [] then 0
    else
      var n := |rows| - 1;
      var rest := OpenBytes(rows[..n], now);
      if rows[n].state.Open? && rows[n].expiresAt <= now then rest + rows[n].receivedBytes else rest
  }

  function CompleteBytes<D>(rows: seq<Row<D>>, now: int): nat {
    if rows == [] then 0
    else
      var n := |rows| - 1;
      var rest := CompleteBytes(rows[..n], now);
      if rows[n].state.Complete? && rows[n].expiresAt <= now then rest + rows[n].declaredBytes else rest
  }

  class AttachmentStore<D(==)> {
    const limits: Limits
    const sha: Bytes -> D
    var rows: seq<Row<D>>

    constructor (limits: Limits, sha: Bytes -> D)
      ensures rows == [] && this.limits == limits && this.sha == sha
    {
      this.limits, this.sha := limits, sha;
      rows := [];
    }

    method Begin(input: BeginInput<D>, newId: string, now: int) returns (r: Result<(string, BeginKind), Error>)
      modifies this
      ensures (rows, r) == BeginOf(limits, old(rows), input, newId, now)
    {
      if input.totalBytes <= 0 { return Err(BadRequest); }
      if input.totalBytes > limits.maxAttachmentBytes { return Err(TooLarge); }
      if input.clientUploadId != "" {
        var existing := FindUpload(rows, input.clientUploadId);
        if existing.Some? {
          var row := rows[existing.value];
          return Ok((row.id, if Mismatch(row, input) then Mismatched else Duplicated));
        }
      }
      if OpenCount(rows) >= limits.maxOpen { return Err(LimitExceeded); }
      if Find(rows, newId).Some? { return Err(IdReused); }
      rows := rows + [NewRow(limits, input, newId, now)];
      r := Ok((newId, Created));
    }

    // The stored chunks, in order, through one hasher.
    method StreamingHash(chunks: seq<Chunk>) returns (hash: D)
      ensures hash == sha(Content(chunks))
    {
      var hashed: Bytes := [];
      for i := 0 to |chunks|
        invariant hashed == Content(chunks[..i])
      {
        assert chunks[..i + 1][..i] == chunks[..i];
        hashed := hashed + chunks[i].data;
      }
      assert chunks[..|chunks|] == chunks;
      hash := sha(hashed);
    }

    method AppendChunk(id: string, offset: nat, payload: Bytes, contentHash: D, now: int)
      returns (r: Result<AppendKind, Error>)
      modifies this
      ensures rows == AppendOf(limits, sha, old(rows), id, offset, payload, contentHash, now).0
      ensures r == AppendOf(limits, sha, old(rows), id, offset, payload, contentHash, now).1
    {
      if !(limits.chunkMinBytes <= |payload| <= limits.chunkMaxBytes) { return Err(BadChunk); }
      if sha(payload) != contentHash { return Err(BadHash); }
      var found := Find(rows, id);
      if found.None? { return Err(NotFound); }
      var i := found.value;
      var record := rows[i];
      if record.state.Complete? {
        if offset + |payload| == record.declaredBytes || offset + |payload| == record.receivedBytes {
          assert rows == rows[i := record];
          return Ok(Duplicate);
        }
        return Err(Conflict);
      }
      if record.state.Aborted? { return Err(Released); }
      if record.state.Expired? || record.expiresAt <= now { return Err(Expiry); }
      if offset != record.receivedBytes {
        assert rows == rows[i := record];
        return Ok(OutOfOrder(record.receivedBytes));
      }
      if record.receivedBytes + |payload| > record.declaredBytes { return Err(BadChunk); }
      if |record.chunks| + 1 > limits.maxChunks { return Err(LimitExceeded); }
      var before := rows;
      rows := rows[i := Extended(record, payload)];
      if record.receivedBytes + |payload| == record.declaredBytes {
        var streamedHash := StreamingHash(rows[i].chunks);
        if record.expectedHash.Some? && streamedHash != record.expectedHash.value {
          // The transaction rolls the stored chunk back.
          rows := before;
          return Err(BadHash);
        }
        rows := rows[i := Finalised(limits, rows[i], streamedHash, now)];
        assert rows == before[i := rows[i]];
      }
      r := Ok(Accepted);
    }

    method CompleteUpload(id: string, contentHash: Option<D>, now: int) returns (r: Result<(), Error>)
      modifies this
      ensures (rows, r) == CompleteOf(limits, sha, old(rows), id, contentHash, now)
    {
      var found := Find(rows, id);
      if found.None? { return Err(NotFound); }
      var record := rows[found.value];
      if record.state.Complete? {
        assert rows == rows[found.value := record];
        return Ok(());
      }
      if record.state.Aborted? { return Err(Released); }
      if record.state.Expired? || record.expiresAt <= now { return Err(Expiry); }
      if record.receivedBytes != record.declaredBytes { return Err(Incomplete); }
      var streamedHash := StreamingHash(record.chunks);
      var expected := if contentHash.Some? then contentHash else record.expectedHash;
      if expected.Some? && expected.value != streamedHash { return Err(BadHash); }
      rows := rows[found.value := Finalised(limits, record, streamedHash, now)];
      r := Ok(());
    }

    method Abort(id: string, now: int) returns (r: Result<(), Error>)
      modifies this
      ensures (rows, r) == AbortOf(old(rows), id, now)
    {
      var found := Find(rows, id);
      if found.None? { return Err(NotFound); }
      var record := rows[found.value];
      if record.state.Complete? { return Err(Conflict); }
      if record.state.Aborted? { return Ok(()); }
      if record.state.Expired? || record.expiresAt <= now { return Err(Expiry); }
      rows := rows[found.value := record.(state := Aborted)];
      r := Ok(());
    }

    method Retain(id: string, until: int, now: int) returns (r: Result<(), Error>)
      modifies this
      ensures (rows, r) == RetainOf(old(rows), id, until, now)
    {
      var found := Find(rows, id);
      if found.None? || !rows[found.value].state.Complete? { return Err(NotFound); }
      var record := rows[found.value];
      var bounded := if until > record.expiresAt then until else record.expiresAt;
      if bounded > now + RETAIN_MS { bounded := now + RETAIN_MS; }
      rows := rows[found.value := record.(expiresAt := bounded)];
      r := Ok(());
    }

    method Sweep(now: int) returns (removed: seq<string>, bytesReclaimed: nat)
      modifies this
      ensures rows == SweepOf(old(rows), now)
      ensures bytesReclaimed == OpenBytes(old(rows), now) + CompleteBytes(Reap(old(rows), Open, now), now)
      ensures removed == Reaped(old(rows), Open, now) + Reaped(Reap(old(rows), Open, now), Complete, now)
    {
      ghost var start := rows;
      removed, bytesReclaimed := [], 0;
      var scanned: seq<Row<D>> := [];
      for i := 0 to |rows|
        invariant rows == start && scanned == Reap(start[..i], Open, now)
        invariant bytesReclaimed == OpenBytes(start[..i], now) && removed == Reaped(start[..i], Open, now)
      {
        assert start[..i + 1][..i] == start[..i];
        if rows[i].state.Open? && rows[i].expiresAt <= now {
          scanned := scanned + [rows[i].(state := Expired)];
          bytesReclaimed := bytesReclaimed + rows[i].receivedBytes;
          removed := removed + [rows[i].id];
        } else {
          scanned := scanned + [rows[i]];
        }
      }
      assert start[..|start|] == start;
      rows := scanned;
      var ids, bytes := ReapCompleted(now);
      removed, bytesReclaimed := removed + ids, bytesReclaimed + bytes;
    }

    // The second half of the sweep.
    method ReapCompleted(now: int) returns (removed: seq<string>, bytesReclaimed: nat)
      modifies this
      ensures rows == Reap(old(rows), Complete, now)
      ensures bytesReclaimed == CompleteBytes(old(rows), now) && removed == Reaped(old(rows), Complete, now)
    {
      ghost var start := rows;
      removed, bytesReclaimed := [], 0;
      var scanned: seq<Row<D>> := [];
      for i := 0 to |rows|
        invariant rows == start && scanned == Reap(start[..i], Complete, now)
        invariant bytesReclaimed == CompleteBytes(start[..i], now) && removed == Reaped(start[..i], Complete, now)
      {
        assert start[..i + 1][..i] == start[..i];
        if rows[i].state.Complete? && rows[i].expiresAt <= now {
          scanned := scanned + [rows[i].(state := Expired)];
          bytesReclaimed := bytesReclaimed + rows[i].declaredBytes;
          removed := removed + [rows[i].id];
        } else {
          scanned := scanned + [rows[i]];
        }
      }
      assert start[..|start|] == start;
      rows := scanned;
    }

    method OpenReadStream(id: string, slice: Option<nat>) returns (r: Result<ReadStream, Error>)
      ensures r.Ok? <==>
                Find(rows, id).Some? && rows[Find(rows, id).value].state.Complete?
      ensures r.Ok? ==> fresh(r.value) && r.value.Valid()
      ensures r.Ok? ==> r.value.chunks == rows[Find(rows, id).value].chunks
      ensures r.Ok? ==> r.value.Remaining() == Content(r.value.chunks)
    {
      var found := Find(rows, id);
      if found.None? { return Err(NotFound); }
      if !rows[found.value].state.Complete? { return Err(Incomplete); }
      var stream := new ReadStream(rows[found.value].chunks, slice);
      r := Ok(stream);
    }
  }

  // ----- Streaming back -----

  const MIN_SLICE := 64 * 1024
  const MAX_SLICE := 8 * 1024 * 1024
  const DEFAULT_SLICE := 1024 * 1024

  function Pending(buffer: Option<Bytes>, offset: nat): Bytes
    requires buffer.Some? ==> offset <= |buffer.value|
  {
    if buffer.Some? then buffer.value[offset..] else []
  }

  lemma {:induction false} ContentUncons(chunks: seq<Chunk>)
    requires chunks != []
    ensures Content(chunks) == chunks[0].data + Content(chunks[1..])
  {
    var n := |chunks| - 1;
    if n > 0 {
      ContentUncons(chunks[..n]);
      assert chunks[..n][1..] == chunks[1..][..n - 1];
    } else {
      assert chunks[..0] == [] && chunks[1..] == [];
    }
  }

  lemma LoadKeepsPending(chunks: seq<Chunk>, i: nat)
    requires i < |chunks|
    ensures Pending(Some(chunks[i].data), 0) + Content(chunks[i + 1..]) == [] + Content(chunks[i..])
  {
    ContentUncons(chunks[i..]);
    assert chunks[i..][1..] == chunks[i + 1..];
    assert chunks[i].data[0..] == chunks[i].data;
  }

  lemma SliceSplitsPending(buffer: Bytes, from: nat, to: nat, rest: Bytes)
    requires from <= to <= |buffer|
    ensures Pending(Some(buffer), from) + rest == buffer[from..to] + (Pending(Some(buffer), to) + rest)
  {
    assert buffer[from..] == buffer[from..to] + buffer[to..];
  }

  class ReadStream {
    const chunks: seq<Chunk>
    const slice: nat
    var chunkIndex: nat
    var sliceOffset: nat
    var sliceBuffer: Option<Bytes>

    ghost predicate Valid()
      reads this
    {
      && slice >= MIN_SLICE && chunkIndex <= |chunks|
      && (sliceBuffer.Some? ==> sliceOffset <= |sliceBuffer.value|)
      && (sliceBuffer.None? ==> sliceOffset == 0)
    }

    // What has not been yielded yet.
    ghost function Remaining(): Bytes
      requires Valid()
      reads this
    {
      Pending(sliceBuffer, sliceOffset) + Content(chunks[chunkIndex..])
    }

    constructor (chunks: seq<Chunk>, slice: Option<nat>)
      ensures Valid() && Remaining() == Content(chunks) && this.chunks == chunks
      ensures MIN_SLICE <= this.slice <= MAX_SLICE
    {
      this.chunks := chunks;
      var wanted := slice.GetOr(DEFAULT_SLICE);
      var capped := if wanted < MAX_SLICE then wanted else MAX_SLICE;
      this.slice := if capped > MIN_SLICE then capped else MIN_SLICE;
      chunkIndex, sliceOffset, sliceBuffer := 0, 0, None;
      new;
      assert chunks[0..] == chunks;
    }

    // A stored chunk that is empty on disk is reported as missing.
    method Next() returns (r: Result<Option<Bytes>, Error>)
      requires Valid()
      modifies this
      ensures Valid()
      ensures r.Ok? && r.value.Some? ==>
                0 < |r.value.value| <= slice && old(Remaining()) == r.value.value + Remaining()
      ensures r == Ok(None) ==> old(Remaining()) == [] == Remaining()
      ensures (forall chunk :: chunk in chunks ==> chunk.data != []) ==> r.Ok?
    {
      while true
        invariant Valid() && Remaining() == old(Remaining())
        decreases |chunks| - chunkIndex, if sliceBuffer.Some? then 1 else 0
      {
        if sliceBuffer.Some? {
          var buffer := sliceBuffer.value;
          if sliceOffset >= |buffer| {
            sliceBuffer, sliceOffset := None, 0;
            continue;
          }
          var end := if sliceOffset + slice < |buffer| then sliceOffset + slice else |buffer|;
          var out := buffer[sliceOffset..end];
          SliceSplitsPending(buffer, sliceOffset, end, Content(chunks[chunkIndex..]));
          sliceOffset := end;
          return Ok(Some(out));
        }
        if chunkIndex >= |chunks| { return Ok(None); }
        var chunk := chunks[chunkIndex];
        LoadKeepsPending(chunks, chunkIndex);
        chunkIndex := chunkIndex + 1;
        if |chunk.data| == 0 { return Err(Incomplete); }
        sliceBuffer := Some(chunk.data);
      }
    }
  }
}
