// What holds of attachments over every run: rows that agree with their chunks, one row per retry
// identity, contents that never change once complete, uploads that arrive whole, sweeps that
// account for their bytes.
module AttachmentProofs {
  import opened Wrappers
  import opened Attachments

  // ----- The invariant of a row -----

  ghost predicate GapFree(chunks: seq<Chunk>) {
    forall i :: 0 <= i < |chunks| ==> chunks[i].offset == |Content(chunks[..i])|
  }

  ghost predicate Sized(c: Limits, chunks: seq<Chunk>) {
    |chunks| <= c.maxChunks && forall i :: 0 <= i < |chunks| ==> c.chunkMinBytes <= |chunks[i].data| <= c.chunkMaxBytes
  }

  // Chunks sit end to end and within the limits; an open row still misses bytes; a complete row has
  // them all, and its hash is that of the content and is the one that was asked for.
  ghost predicate RowOk<D>(c: Limits, sha: Bytes -> D, row: Row<D>) {
    && GapFree(row.chunks) && Sized(c, row.chunks)
    && row.receivedBytes == |Content(row.chunks)| <= row.declaredBytes <= c.maxAttachmentBytes
    && (row.state.Open? ==> row.receivedBytes < row.declaredBytes && row.finalHash.None?)
    && (row.state.Complete? ==> row.receivedBytes == row.declaredBytes && Sealed(sha, row))
  }

  ghost predicate Sealed<D>(sha: Bytes -> D, row: Row<D>) {
    && row.finalHash == Some(sha(Content(row.chunks)))
    && (row.expectedHash.Some? ==> row.expectedHash == row.finalHash)
  }

  ghost predicate AllRowsOk<D>(c: Limits, sha: Bytes -> D, rows: seq<Row<D>>) {
    forall i :: 0 <= i < |rows| ==> RowOk(c, sha, rows[i])
  }

  // No two rows share an id or a retry identity.
  ghost predicate Distinct<D>(rows: seq<Row<D>>) {
    && (forall i, j :: 0 <= i < j < |rows| ==> rows[i].id != rows[j].id)
    && (forall i, j :: 0 <= i < j < |rows| && rows[i].clientUploadId != "" ==>
          rows[i].clientUploadId != rows[j].clientUploadId)
  }

  ghost predicate Valid<D>(c: Limits, sha: Bytes -> D, rows: seq<Row<D>>) {
    AllRowsOk(c, sha, rows) && Distinct(rows) && OpenCount(rows) <= c.maxOpen
  }

  // ----- Steps -----

  datatype Op<D> =
    | BeginUpload(input: BeginInput<D>, newId: string, now: int)
    | AppendChunk(id: string, offset: nat, payload: Bytes, contentHash: D, now: int)
    | CompleteUpload(id: string, expected: Option<D>, now: int)
    | AbortUpload(id: string, now: int)
    | RetainUpload(id: string, until: int, now: int)
    | SweepAll(now: int)

  function Apply<D(==)>(c: Limits, sha: Bytes -> D, rows: seq<Row<D>>, op: Op<D>): seq<Row<D>> {
    match op
    case BeginUpload(input, newId, now) => BeginOf(c, rows, input, newId, now).0
    case AppendChunk(id, offset, payload, hash, now) => AppendOf(c, sha, rows, id, offset, payload, hash, now).0
    case CompleteUpload(id, expected, now) => CompleteOf(c, sha, rows, id, expected, now).0
    case AbortUpload(id, now) => AbortOf(rows, id, now).0
    case RetainUpload(id, until, now) => RetainOf(rows, id, until, now).0
    case SweepAll(now) => SweepOf(rows, now)
  }

  function Run<D(==)>(c: Limits, sha: Bytes -> D, rows: seq<Row<D>>, ops: seq<Op<D>>): seq<Row<D>> {
    if ops == [] then rows else Apply(c, sha, Run(c, sha, rows, ops[..|ops| - 1]), ops[|ops| - 1])
  }

  // ----- Searching -----

  lemma {:induction false} FoundWhereItIs<D>(rows: seq<Row<D>>, i: nat)
    requires Distinct(rows) && i < |rows|
    ensures Find(rows, rows[i].id) == Some(i)
  {
    var n := |rows| - 1;
    if i < n {
      FoundWhereItIs(rows[..n], i);
    }
  }

  lemma {:induction false} NotFound<D>(rows: seq<Row<D>>, id: string)
    requires Find(rows, id).None?
    ensures forall i :: 0 <= i < |rows| ==> rows[i].id != id
  {
    if rows != [] {
      NotFound(rows[..|rows| - 1], id);
    }
  }

  lemma {:induction false} UploadNotFound<D>(rows: seq<Row<D>>, clientUploadId: string)
    requires FindUpload(rows, clientUploadId).None?
    ensures forall i :: 0 <= i < |rows| ==> rows[i].clientUploadId != clientUploadId
  {
    if rows != [] {
      UploadNotFound(rows[..|rows| - 1], clientUploadId);
    }
  }

  lemma {:induction false} UploadFoundWhereItIs<D>(rows: seq<Row<D>>, i: nat)
    requires Distinct(rows) && i < |rows| && rows[i].clientUploadId != ""
    ensures FindUpload(rows, rows[i].clientUploadId) == Some(i)
  {
    var n := |rows| - 1;
    if i < n {
      UploadFoundWhereItIs(rows[..n], i);
    }
  }

  // ----- Counting open rows -----

  lemma {:induction false} OpenCountUpdate<D>(rows: seq<Row<D>>, i: nat, row: Row<D>)
    requires i < |rows| && (row.state.Open? ==> rows[i].state.Open?)
    ensures OpenCount(rows[i := row]) <= OpenCount(rows)
  {
    var n := |rows| - 1;
    if i < n {
      OpenCountUpdate(rows[..n], i, row);
      assert rows[i := row][..n] == rows[..n][i := row];
    } else {
      assert rows[i := row][..n] == rows[..n];
    }
  }

  lemma {:induction false} OpenCountReap<D>(rows: seq<Row<D>>, state: State, now: int)
    ensures OpenCount(Reap(rows, state, now)) <= OpenCount(rows)
  {
    if rows != [] {
      var n := |rows| - 1;
      OpenCountReap(rows[..n], state, now);
      var reaped := Reap(rows, state, now);
      assert reaped[..|reaped| - 1] == Reap(rows[..n], state, now);
    }
  }

  // ----- The sweep, row by row -----

  lemma {:induction false} ReapAt<D>(rows: seq<Row<D>>, state: State, now: int)
    ensures |Reap(rows, state, now)| == |rows|
    ensures forall i :: 0 <= i < |rows| ==>
              Reap(rows, state, now)[i]
              == if rows[i].state == state && rows[i].expiresAt <= now then rows[i].(state := Expired) else rows[i]
  {
    if rows != [] {
      ReapAt(rows[..|rows| - 1], state, now);
    }
  }

  predicate Live<D>(row: Row<D>) {
    row.state.Open? || row.state.Complete?
  }

  // A sweep expires the open and complete rows whose time has come and touches no other.
  lemma SweepExact<D>(rows: seq<Row<D>>, now: int)
    ensures |SweepOf(rows, now)| == |rows|
    ensures forall i :: 0 <= i < |rows| ==>
              SweepOf(rows, now)[i]
              == if Live(rows[i]) && rows[i].expiresAt <= now then rows[i].(state := Expired) else rows[i]
  {
    ReapAt(rows, Open, now);
    ReapAt(Reap(rows, Open, now), Complete, now);
  }

  lemma {:induction false} OpenReapDrops<D>(rows: seq<Row<D>>, now: int)
    ensures Aggregate(rows) == Aggregate(Reap(rows, Open, now)) + OpenBytes(rows, now)
  {
    if rows != [] {
      var n := |rows| - 1;
      OpenReapDrops(rows[..n], now);
      var reaped := Reap(rows, Open, now);
      assert reaped[..|reaped| - 1] == Reap(rows[..n], Open, now);
    }
  }

  lemma {:induction false} CompleteReapDrops<D>(c: Limits, sha: Bytes -> D, rows: seq<Row<D>>, now: int)
    requires AllRowsOk(c, sha, rows)
    ensures Aggregate(rows) == Aggregate(Reap(rows, Complete, now)) + CompleteBytes(rows, now)
  {
    if rows != [] {
      var n := |rows| - 1;
      CompleteReapDrops(c, sha, rows[..n], now);
      var reaped := Reap(rows, Complete, now);
      assert reaped[..|reaped| - 1] == Reap(rows[..n], Complete, now);
      assert RowOk(c, sha, rows[n]);
    }
  }

  // The bytes that a sweep reports are the drop in the retained total.
  lemma {:induction false} SweepReclaimsTheDrop<D>(c: Limits, sha: Bytes -> D, rows: seq<Row<D>>, now: int)
    requires AllRowsOk(c, sha, rows)
    ensures Aggregate(rows) - Aggregate(SweepOf(rows, now))
         == OpenBytes(rows, now) + CompleteBytes(Reap(rows, Open, now), now)
  {
    var middle := Reap(rows, Open, now);
    OpenReapDrops(rows, now);
    ReapAt(rows, Open, now);
    forall i | 0 <= i < |middle| ensures RowOk(c, sha, middle[i]) {
      assert RowOk(c, sha, rows[i]);
    }
    CompleteReapDrops(c, sha, middle, now);
  }

  // ----- Every operation keeps the invariant -----

  lemma ExtendedOk<D>(c: Limits, sha: Bytes -> D, row: Row<D>, payload: Bytes)
    requires RowOk(c, sha, row) && |row.chunks| < c.maxChunks && c.chunkMinBytes <= |payload| <= c.chunkMaxBytes
    ensures GapFree(Extended(row, payload).chunks) && Sized(c, Extended(row, payload).chunks)
    ensures Content(Extended(row, payload).chunks) == Content(row.chunks) + payload
  {
    var longer := Extended(row, payload).chunks;
    assert longer[..|longer| - 1] == row.chunks;
    forall i | 0 <= i < |longer| ensures longer[i].offset == |Content(longer[..i])| {
      if i < |row.chunks| {
        assert longer[..i] == row.chunks[..i];
        assert longer[i] == row.chunks[i];
      }
    }
  }

  lemma AppendToOk<D>(c: Limits, sha: Bytes -> D, row: Row<D>, offset: nat, payload: Bytes, now: int)
    requires RowOk(c, sha, row) && c.chunkMinBytes <= |payload| <= c.chunkMaxBytes
    requires AppendTo(c, sha, row, offset, payload, now).Ok?
    ensures RowOk(c, sha, AppendTo(c, sha, row, offset, payload, now).value.0)
  {
    var r := AppendTo(c, sha, row, offset, payload, now).value;
    if r.0 != row {
      ExtendedOk(c, sha, row, payload);
    }
  }

  // A replaced row that keeps its two identities keeps the table.
  lemma UpdateKeeps<D>(c: Limits, sha: Bytes -> D, rows: seq<Row<D>>, i: nat, row: Row<D>)
    requires Valid(c, sha, rows) && i < |rows| && RowOk(c, sha, row)
    requires row.id == rows[i].id && row.clientUploadId == rows[i].clientUploadId
    requires row.state.Open? ==> rows[i].state.Open?
    ensures Valid(c, sha, rows[i := row])
  {
    OpenCountUpdate(rows, i, row);
  }

  lemma NewRowKeeps<D>(c: Limits, sha: Bytes -> D, rows: seq<Row<D>>, row: Row<D>)
    requires Valid(c, sha, rows) && RowOk(c, sha, row) && OpenCount(rows) < c.maxOpen
    requires forall i :: 0 <= i < |rows| ==> rows[i].id != row.id
    requires row.clientUploadId != "" ==> forall i :: 0 <= i < |rows| ==> rows[i].clientUploadId != row.clientUploadId
    ensures Valid(c, sha, rows + [row])
  {
    NewRowOk(c, sha, rows, row);
    NewRowDistinct(rows, row);
    NewRowOpens(rows, row);
  }

  lemma NewRowOk<D>(c: Limits, sha: Bytes -> D, rows: seq<Row<D>>, row: Row<D>)
    requires AllRowsOk(c, sha, rows) && RowOk(c, sha, row)
    ensures AllRowsOk(c, sha, rows + [row])
  {
    forall i | 0 <= i <= |rows| ensures RowOk(c, sha, (rows + [row])[i]) {
      assert (rows + [row])[i] == if i < |rows| then rows[i] else row;
    }
  }

  lemma NewRowOpens<D>(rows: seq<Row<D>>, row: Row<D>)
    ensures OpenCount(rows + [row]) <= OpenCount(rows) + 1
  {
    assert (rows + [row])[..|rows|] == rows;
  }

  lemma NewRowDistinct<D>(rows: seq<Row<D>>, row: Row<D>)
    requires Distinct(rows) && forall i :: 0 <= i < |rows| ==> rows[i].id != row.id
    requires row.clientUploadId != "" ==> forall i :: 0 <= i < |rows| ==> rows[i].clientUploadId != row.clientUploadId
    ensures Distinct(rows + [row])
  {
  }

  lemma BeginKeeps<D>(c: Limits, sha: Bytes -> D, rows: seq<Row<D>>, input: BeginInput<D>, newId: string, now: int)
    requires Valid(c, sha, rows)
    ensures Valid(c, sha, BeginOf(c, rows, input, newId, now).0)
  {
    if BeginOf(c, rows, input, newId, now).0 != rows {
      NotFound(rows, newId);
      if input.clientUploadId != "" {
        UploadNotFound(rows, input.clientUploadId);
      }
      NewRowKeeps(c, sha, rows, NewRow(c, input, newId, now));
    }
  }

  lemma AppendKeeps<D>(c: Limits, sha: Bytes -> D, rows: seq<Row<D>>, id: string, offset: nat, payload: Bytes,
        hash: D, now: int)
    requires Valid(c, sha, rows)
    ensures Valid(c, sha, AppendOf(c, sha, rows, id, offset, payload, hash, now).0)
  {
    var after := AppendOf(c, sha, rows, id, offset, payload, hash, now).0;
    if after != rows {
      var i := Find(rows, id).value;
      assert RowOk(c, sha, rows[i]);
      AppendToOk(c, sha, rows[i], offset, payload, now);
      UpdateKeeps(c, sha, rows, i, after[i]);
    }
  }

  lemma SweepKeepsRows<D>(c: Limits, sha: Bytes -> D, rows: seq<Row<D>>, now: int)
    requires AllRowsOk(c, sha, rows)
    ensures AllRowsOk(c, sha, SweepOf(rows, now))
  {
    SweepExact(rows, now);
    forall i | 0 <= i < |rows| ensures RowOk(c, sha, SweepOf(rows, now)[i]) {
      assert RowOk(c, sha, rows[i]);
    }
  }

  lemma SweepKeepsDistinct<D>(rows: seq<Row<D>>, now: int)
    requires Distinct(rows)
    ensures Distinct(SweepOf(rows, now))
  {
    SweepExact(rows, now);
  }

  lemma SweepKeeps<D>(c: Limits, sha: Bytes -> D, rows: seq<Row<D>>, now: int)
    requires Valid(c, sha, rows)
    ensures Valid(c, sha, SweepOf(rows, now))
  {
    SweepKeepsRows(c, sha, rows, now);
    SweepKeepsDistinct(rows, now);
    OpenCountReap(rows, Open, now);
    OpenCountReap(Reap(rows, Open, now), Complete, now);
  }

  // In a valid table an explicit completion never has work to do: it either finds the upload already
  // complete or is refused, and the table stays as it is.
  lemma {:induction false} CompleteNeverFinishes<D>(c: Limits, sha: Bytes -> D, rows: seq<Row<D>>, id: string,
        expected: Option<D>, now: int)
    requires Valid(c, sha, rows)
    ensures CompleteOf(c, sha, rows, id, expected, now).0 == rows
    ensures CompleteOf(c, sha, rows, id, expected, now).1.Ok?
       <==> exists i :: 0 <= i < |rows| && rows[i].id == id && rows[i].state.Complete?
  {
    var found := Find(rows, id);
    if found.Some? {
      assert RowOk(c, sha, rows[found.value]);
      forall i | 0 <= i < |rows| && rows[i].id == id ensures i == found.value {
        FoundWhereItIs(rows, i);
      }
    } else {
      NotFound(rows, id);
    }
  }

  lemma AbortKeeps<D>(c: Limits, sha: Bytes -> D, rows: seq<Row<D>>, id: string, now: int)
    requires Valid(c, sha, rows)
    ensures Valid(c, sha, AbortOf(rows, id, now).0)
  {
    var after := AbortOf(rows, id, now).0;
    if after != rows {
      var i := Find(rows, id).value;
      assert RowOk(c, sha, rows[i]);
      UpdateKeeps(c, sha, rows, i, after[i]);
    }
  }

  lemma RetainKeeps<D>(c: Limits, sha: Bytes -> D, rows: seq<Row<D>>, id: string, until: int, now: int)
    requires Valid(c, sha, rows)
    ensures Valid(c, sha, RetainOf(rows, id, until, now).0)
  {
    var after := RetainOf(rows, id, until, now).0;
    if after != rows {
      var i := Find(rows, id).value;
      assert RowOk(c, sha, rows[i]);
      UpdateKeeps(c, sha, rows, i, after[i]);
    }
  }

  lemma ApplyKeeps<D>(c: Limits, sha: Bytes -> D, rows: seq<Row<D>>, op: Op<D>)
    requires Valid(c, sha, rows)
    ensures Valid(c, sha, Apply(c, sha, rows, op))
  {
    match op
    case BeginUpload(input, newId, now) => BeginKeeps(c, sha, rows, input, newId, now);
    case AppendChunk(id, offset, payload, hash, now) => AppendKeeps(c, sha, rows, id, offset, payload, hash, now);
    case CompleteUpload(id, expected, now) => CompleteNeverFinishes(c, sha, rows, id, expected, now);
    case AbortUpload(id, now) => AbortKeeps(c, sha, rows, id, now);
    case RetainUpload(id, until, now) => RetainKeeps(c, sha, rows, id, until, now);
    case SweepAll(now) => SweepKeeps(c, sha, rows, now);
  }

  // Every reachable table is valid.
  lemma {:induction false} RunKeeps<D>(c: Limits, sha: Bytes -> D, ops: seq<Op<D>>)
    ensures Valid(c, sha, Run(c, sha, [], ops))
  {
    if ops != [] {
      RunKeeps(c, sha, ops[..|ops| - 1]);
      ApplyKeeps(c, sha, Run(c, sha, [], ops[..|ops| - 1]), ops[|ops| - 1]);
    }
  }

  // Retaining puts the expiry of a complete row between the time it had and the time asked for, but
  // never past seven days from now; so it shortens a row's life if and only if that was already past
  // them.
  lemma {:induction false} RetainShortensExactly<D>(c: Limits, sha: Bytes -> D, rows: seq<Row<D>>, i: nat, until: int,
        now: int)
    requires Valid(c, sha, rows) && i < |rows| && rows[i].state.Complete?
    ensures var after := RetainOf(rows, rows[i].id, until, now).0;
            && |after| == |rows| && after == rows[i := after[i]] && after[i] == rows[i].(expiresAt := after[i].expiresAt)
            && after[i].expiresAt <= now + RETAIN_MS
            && (after[i].expiresAt < rows[i].expiresAt <==> rows[i].expiresAt > now + RETAIN_MS)
            && (until <= now + RETAIN_MS ==> after[i].expiresAt >= until)
  {
    FoundWhereItIs(rows, i);
  }

  // ----- Retention over runs -----

  // The time of the last operation of a run that starts at `start`.
  function Now<D>(start: int, ops: seq<Op<D>>): int {
    if ops == [] then start else ops[|ops| - 1].now
  }

  ghost predicate TimesRise<D>(start: int, ops: seq<Op<D>>) {
    ops == [] || (TimesRise(start, ops[..|ops| - 1]) && Now(start, ops[..|ops| - 1]) <= ops[|ops| - 1].now)
  }

  ghost predicate ExpiresBy<D>(rows: seq<Row<D>>, limit: int) {
    forall i :: 0 <= i < |rows| && rows[i].state.Complete? ==> rows[i].expiresAt <= limit
  }

  lemma ExpiryStep<D>(c: Limits, sha: Bytes -> D, rows: seq<Row<D>>, op: Op<D>, now: int)
    requires Valid(c, sha, rows) && c.completedTtlMs <= RETAIN_MS && now <= op.now && ExpiresBy(rows, now + RETAIN_MS)
    ensures ExpiresBy(Apply(c, sha, rows, op), op.now + RETAIN_MS)
  {
    match op
    case CompleteUpload(id, expected, at) => CompleteNeverFinishes(c, sha, rows, id, expected, at);
    case SweepAll(at) => SweepExpiry(rows, at, now + RETAIN_MS);
    case AppendChunk(id, offset, payload, hash, at) => ChunkExpiry(c, sha, rows, id, offset, payload, hash, at, now);
    case RetainUpload(id, until, at) => RetainExpiry(rows, id, until, at, now);
    case AbortUpload(id, at) => AbortExpiry(rows, id, at, now + RETAIN_MS);
    case BeginUpload(input, newId, at) => BeginExpiry(c, rows, input, newId, at, now + RETAIN_MS);
  }

  lemma SweepExpiry<D>(rows: seq<Row<D>>, at: int, limit: int)
    requires ExpiresBy(rows, limit)
    ensures ExpiresBy(SweepOf(rows, at), limit)
  {
    SweepExact(rows, at);
  }

  lemma BeginExpiry<D>(c: Limits, rows: seq<Row<D>>, input: BeginInput<D>, newId: string, at: int, limit: int)
    requires ExpiresBy(rows, limit)
    ensures ExpiresBy(BeginOf(c, rows, input, newId, at).0, limit)
  {
  }

  lemma RetainExpiry<D>(rows: seq<Row<D>>, id: string, until: int, at: int, now: int)
    requires now <= at && ExpiresBy(rows, now + RETAIN_MS)
    ensures ExpiresBy(RetainOf(rows, id, until, at).0, at + RETAIN_MS)
  {
  }

  lemma AbortExpiry<D>(rows: seq<Row<D>>, id: string, at: int, limit: int)
    requires ExpiresBy(rows, limit)
    ensures ExpiresBy(AbortOf(rows, id, at).0, limit)
  {
  }

  lemma ChunkExpiry<D>(c: Limits, sha: Bytes -> D, rows: seq<Row<D>>, id: string, offset: nat, payload: Bytes, hash: D,
        at: int, now: int)
    requires c.completedTtlMs <= RETAIN_MS && now <= at && ExpiresBy(rows, now + RETAIN_MS)
    ensures ExpiresBy(AppendOf(c, sha, rows, id, offset, payload, hash, at).0, at + RETAIN_MS)
  {
    var i := Find(rows, id);
    if i.Some? {
      var to := AppendTo(c, sha, rows[i.value], offset, payload, at);
      assert to.Ok? && to.value.0.state.Complete? ==> to.value.0.expiresAt <= at + RETAIN_MS;
    }
  }

  lemma {:induction false} ExpiryIsNear<D>(c: Limits, sha: Bytes -> D, start: int, ops: seq<Op<D>>)
    requires c.completedTtlMs <= RETAIN_MS && TimesRise(start, ops)
    ensures ExpiresBy(Run(c, sha, [], ops), Now(start, ops) + RETAIN_MS)
  {
    if ops != [] {
      var before := ops[..|ops| - 1];
      ExpiryIsNear(c, sha, start, before);
      RunKeeps(c, sha, before);
      ExpiryStep(c, sha, Run(c, sha, [], before), ops[|ops| - 1], Now(start, before));
    }
  }

  // With a retention of completed uploads of at most seven days, such as the 24 hours of the defaults,
  // no retain of any run on a non-decreasing clock shortens a life.
  lemma {:induction false} RetainNeverShortens<D>(c: Limits, sha: Bytes -> D, start: int, ops: seq<Op<D>>, i: nat,
        until: int, now: int)
    requires c.completedTtlMs <= RETAIN_MS && TimesRise(start, ops) && Now(start, ops) <= now
    requires i < |Run(c, sha, [], ops)| && Run(c, sha, [], ops)[i].state.Complete?
    ensures var rows := Run(c, sha, [], ops);
            var after := RetainOf(rows, rows[i].id, until, now).0;
            |after| == |rows| && after[i].expiresAt >= rows[i].expiresAt
  {
    RunKeeps(c, sha, ops);
    ExpiryIsNear(c, sha, start, ops);
    RetainShortensExactly(c, sha, Run(c, sha, [], ops), i, until, now);
  }

  const ONE_BYTE: Bytes := [7]

  function BriefUpload<D>(sha: Bytes -> D): seq<Op<D>> {
    [BeginUpload(BeginInput(1, "image/png", None, "phone:1"), "a", 0), AppendChunk("a", 0, ONE_BYTE, sha(ONE_BYTE), 0)]
  }

  lemma BriefBegin<D>(c: Limits, sha: Bytes -> D)
    requires c.maxAttachmentBytes >= 1 && c.maxOpen >= 1
    ensures Run(c, sha, [], BriefUpload(sha)[..1])
         == [Row("a", "phone:1", "image/png", 1, 0, [], Open, None, None, c.ttlMs)]
  {
    var one := BriefUpload(sha)[..1];
    var none: seq<Row<D>> := [];
    assert one == [BriefUpload(sha)[0]] && one[..0] == [];
    assert Run(c, sha, none, []) == none;
  }

  lemma BriefUploadCompletes<D>(c: Limits, sha: Bytes -> D)
    requires c.maxAttachmentBytes >= 1 && c.maxOpen >= 1 && c.maxChunks >= 1 && c.ttlMs > 0
    requires c.chunkMinBytes <= 1 <= c.chunkMaxBytes
    ensures var rows := Run(c, sha, [], BriefUpload(sha));
            |rows| == 1 && rows[0].id == "a" && rows[0].state.Complete? && rows[0].expiresAt == c.completedTtlMs
  {
    var ops := BriefUpload(sha);
    var rows := Run(c, sha, [], ops[..1]);
    BriefBegin(c, sha);
    RunKeeps(c, sha, ops[..1]);
    AppendPiece(c, sha, rows, 0, ONE_BYTE, 0);
    assert [] + ONE_BYTE == ONE_BYTE;
  }

  // With any longer retention a retain straight after the upload does shorten its life.
  lemma RetainShortensWitness<D>(c: Limits, sha: Bytes -> D, until: int)
    requires c.maxAttachmentBytes >= 1 && c.maxOpen >= 1 && c.maxChunks >= 1 && c.ttlMs > 0
    requires c.chunkMinBytes <= 1 <= c.chunkMaxBytes && c.completedTtlMs > RETAIN_MS
    ensures var rows := Run(c, sha, [], BriefUpload(sha));
            && TimesRise(0, BriefUpload(sha)) && |rows| == 1
            && RetainOf(rows, "a", until, 0).0[0].expiresAt < rows[0].expiresAt
  {
    BriefUploadCompletes(c, sha);
    RunKeeps(c, sha, BriefUpload(sha));
    RetainShortensExactly(c, sha, Run(c, sha, [], BriefUpload(sha)), 0, until, 0);
    BriefUploadIsTimely(sha);
  }

  lemma BriefUploadIsTimely<D>(sha: Bytes -> D)
    ensures TimesRise(0, BriefUpload(sha))
  {
    var ops := BriefUpload(sha);
    var one := ops[..|ops| - 1];
    assert one == [ops[0]] && one[..|one| - 1] == [];
    assert TimesRise(0, one);
  }

  // ----- What a row keeps for ever -----

  // A row keeps its place, its identities and its promises; its bytes only grow at the end, and not
  // at all once it has left the open state.
  ghost predicate Follows<D>(before: Row<D>, after: Row<D>) {
    && after.id == before.id && after.clientUploadId == before.clientUploadId
    && after.declaredBytes == before.declaredBytes && after.expectedHash == before.expectedHash
    && before.chunks <= after.chunks
    && (!before.state.Open? ==> after.chunks == before.chunks && after.finalHash == before.finalHash)
    && (before.state.Complete? ==> Live(after) || after.state.Expired?)
    && (before.state.Aborted? || before.state.Expired? ==> after.state == before.state)
    && (after.state.Open? ==> before.state.Open?)
  }

  ghost predicate AllFollow<D>(before: seq<Row<D>>, after: seq<Row<D>>) {
    |before| <= |after| && forall i :: 0 <= i < |before| ==> Follows(before[i], after[i])
  }

  lemma UpdateFollows<D>(rows: seq<Row<D>>, i: nat, row: Row<D>)
    requires i < |rows| && Follows(rows[i], row)
    ensures AllFollow(rows, rows[i := row])
  {
    forall j | 0 <= j < |rows| ensures Follows(rows[j], rows[i := row][j]) {
    }
  }

  lemma SweepFollows<D>(rows: seq<Row<D>>, now: int)
    ensures AllFollow(rows, SweepOf(rows, now))
  {
    SweepExact(rows, now);
  }

  lemma AppendFollows<D>(c: Limits, sha: Bytes -> D, rows: seq<Row<D>>, id: string, offset: nat, payload: Bytes,
        hash: D, now: int)
    ensures AllFollow(rows, AppendOf(c, sha, rows, id, offset, payload, hash, now).0)
  {
    var after := AppendOf(c, sha, rows, id, offset, payload, hash, now).0;
    if after != rows {
      var i := Find(rows, id).value;
      UpdateFollows(rows, i, after[i]);
    }
  }

  lemma BeginFollows<D>(c: Limits, rows: seq<Row<D>>, input: BeginInput<D>, newId: string, now: int)
    ensures AllFollow(rows, BeginOf(c, rows, input, newId, now).0)
  {
    var after := BeginOf(c, rows, input, newId, now).0;
    assert |rows| <= |after| && after[..|rows|] == rows;
    forall i | 0 <= i < |rows| ensures Follows(rows[i], after[i]) {
      assert after[i] == rows[i];
    }
  }

  lemma AbortFollows<D>(rows: seq<Row<D>>, id: string, now: int)
    ensures AllFollow(rows, AbortOf(rows, id, now).0)
  {
    var after := AbortOf(rows, id, now).0;
    if after != rows {
      UpdateFollows(rows, Find(rows, id).value, after[Find(rows, id).value]);
    }
  }

  lemma RetainFollows<D>(rows: seq<Row<D>>, id: string, until: int, now: int)
    ensures AllFollow(rows, RetainOf(rows, id, until, now).0)
  {
    var after := RetainOf(rows, id, until, now).0;
    if after != rows {
      UpdateFollows(rows, Find(rows, id).value, after[Find(rows, id).value]);
    }
  }

  lemma ApplyFollows<D>(c: Limits, sha: Bytes -> D, rows: seq<Row<D>>, op: Op<D>)
    requires Valid(c, sha, rows)
    ensures AllFollow(rows, Apply(c, sha, rows, op))
  {
    match op
    case BeginUpload(input, newId, now) => BeginFollows(c, rows, input, newId, now);
    case AppendChunk(id, offset, payload, hash, now) => AppendFollows(c, sha, rows, id, offset, payload, hash, now);
    case CompleteUpload(id, expected, now) => CompleteNeverFinishes(c, sha, rows, id, expected, now);
    case AbortUpload(id, now) => AbortFollows(rows, id, now);
    case RetainUpload(id, until, now) => RetainFollows(rows, id, until, now);
    case SweepAll(now) => SweepFollows(rows, now);
  }

  lemma {:induction false} RunFollows<D>(c: Limits, sha: Bytes -> D, rows: seq<Row<D>>, ops: seq<Op<D>>)
    requires Valid(c, sha, rows)
    ensures Valid(c, sha, Run(c, sha, rows, ops)) && AllFollow(rows, Run(c, sha, rows, ops))
  {
    if ops != [] {
      var before := Run(c, sha, rows, ops[..|ops| - 1]);
      RunFollows(c, sha, rows, ops[..|ops| - 1]);
      ApplyKeeps(c, sha, before, ops[|ops| - 1]);
      ApplyFollows(c, sha, before, ops[|ops| - 1]);
      forall i | 0 <= i < |rows| ensures Follows(rows[i], Run(c, sha, rows, ops)[i]) {
        assert Follows(rows[i], before[i]);
        assert Follows(before[i], Apply(c, sha, before, ops[|ops| - 1])[i]);
      }
    }
  }

  // The row that a successful begin answers with.
  lemma BegunRow<D>(c: Limits, rows: seq<Row<D>>, input: BeginInput<D>, newId: string, now: int) returns (i: nat)
    requires BeginOf(c, rows, input, newId, now).1.Ok?
    ensures var r := BeginOf(c, rows, input, newId, now);
            && i < |r.0| && r.0[i].id == r.1.value.0
            && (input.clientUploadId != "" ==> r.0[i].clientUploadId == input.clientUploadId)
  {
    var existing := if input.clientUploadId == "" then None else FindUpload(rows, input.clientUploadId);
    i := if existing.Some? then existing.value else |rows|;
  }

  lemma BeginFinds<D>(c: Limits, rows: seq<Row<D>>, i: nat, again: BeginInput<D>, otherId: string, later: int)
    requires Distinct(rows) && i < |rows| && again.clientUploadId != "" && rows[i].clientUploadId == again.clientUploadId
    requires 0 < again.totalBytes <= c.maxAttachmentBytes
    ensures var r := BeginOf(c, rows, again, otherId, later);
            r.0 == rows && r.1.Ok? && r.1.value.0 == rows[i].id && !r.1.value.1.Created?
  {
    UploadFoundWhereItIs(rows, i);
  }

  // Beginning again under the same retry identity, after anything else has happened, answers with
  // the first id and adds nothing.
  lemma {:induction false} BeginIsIdempotent<D>(c: Limits, sha: Bytes -> D, rows: seq<Row<D>>, input: BeginInput<D>,
        newId: string, now: int,
                             ops: seq<Op<D>>, again: BeginInput<D>, otherId: string, later: int)
    requires Valid(c, sha, rows) && BeginOf(c, rows, input, newId, now).1.Ok?
    requires input.clientUploadId != "" && again.clientUploadId == input.clientUploadId
    requires 0 < again.totalBytes <= c.maxAttachmentBytes
    ensures var first := BeginOf(c, rows, input, newId, now);
            var after := Run(c, sha, first.0, ops);
            var second := BeginOf(c, after, again, otherId, later);
            second.0 == after && second.1.Ok? && second.1.value.0 == first.1.value.0 && !second.1.value.1.Created?
  {
    var first := BeginOf(c, rows, input, newId, now).0;
    BeginKeeps(c, sha, rows, input, newId, now);
    var i := BegunRow(c, rows, input, newId, now);
    RunFollows(c, sha, first, ops);
    var after := Run(c, sha, first, ops);
    assert Follows(first[i], after[i]);
    BeginFinds(c, after, i, again, otherId, later);
  }

  // ----- A whole upload -----

  // The pieces in order, as one byte string.
  function Joined(pieces: seq<Bytes>): Bytes {
    if pieces == [] then [] else Joined(pieces[..|pieces| - 1]) + pieces[|pieces| - 1]
  }

  // In `ops` the client sends its pieces, each at the offset where the one before ended. Between them
  // anything may happen to other uploads, the client may repeat calls at offsets that are past or not
  // yet due, and it may complete or retain too soon; only nobody aborts the upload.
  ghost predicate Sends<D>(sha: Bytes -> D, id: string, ops: seq<Op<D>>, pieces: seq<Bytes>) {
    if ops == [] then pieces == []
    else
      var before, op := ops[..|ops| - 1], ops[|ops| - 1];
      || (IsPiece(sha, id, op, pieces) && Sends(sha, id, before, pieces[..|pieces| - 1]))
      || (IsAside(id, op, |Joined(pieces)|) && Sends(sha, id, before, pieces))
  }

  predicate IsPiece<D(==)>(sha: Bytes -> D, id: string, op: Op<D>, pieces: seq<Bytes>) {
    && pieces != [] && op.AppendChunk? && op.id == id
    && op.offset == |Joined(pieces[..|pieces| - 1])|
    && op.payload == pieces[|pieces| - 1] && op.contentHash == sha(op.payload)
  }

  predicate IsAside<D>(id: string, op: Op<D>, received: nat) {
    && (op.AbortUpload? ==> op.id != id)
    && (op.AppendChunk? && op.id == id ==> op.offset != received)
  }

  ghost predicate Sendable(c: Limits, pieces: seq<Bytes>) {
    && |pieces| <= c.maxChunks
    && forall i :: 0 <= i < |pieces| ==> c.chunkMinBytes <= |pieces[i]| <= c.chunkMaxBytes && pieces[i] != []
  }

  lemma {:induction false} JoinedPrefix(pieces: seq<Bytes>, n: nat)
    requires n <= |pieces|
    ensures |Joined(pieces[..n])| <= |Joined(pieces)|
    ensures n < |pieces| && pieces[|pieces| - 1] != [] ==> |Joined(pieces[..n])| < |Joined(pieces)|
  {
    if n == |pieces| {
      assert pieces[..n] == pieces;
    } else {
      var m := |pieces| - 1;
      JoinedPrefix(pieces[..m], n);
      assert pieces[..m][..n] == pieces[..n];
    }
  }

  ghost predicate Fresh<D>(rows: seq<Row<D>>, i: nat, total: nat)
    requires i < |rows|
  {
    rows[i].state.Open? && rows[i].chunks == [] && rows[i].declaredBytes == total
  }

  ghost predicate AllBefore<D>(ops: seq<Op<D>>, deadline: int) {
    forall op :: op in ops ==> op.now < deadline
  }

  // Row `i` is still `first`, open, and holds `bytes` in `count` chunks.
  ghost predicate Holding<D>(rows: seq<Row<D>>, i: nat, first: Row<D>, bytes: Bytes, count: nat) {
    && i < |rows| && rows[i].state.Open? && |rows[i].chunks| == count && Content(rows[i].chunks) == bytes
    && rows[i].id == first.id && rows[i].declaredBytes == first.declaredBytes
    && rows[i].expiresAt == first.expiresAt && rows[i].expectedHash == first.expectedHash
  }

  lemma AppendPiece<D>(c: Limits, sha: Bytes -> D, rows: seq<Row<D>>, i: nat, piece: Bytes, now: int)
    requires Valid(c, sha, rows) && i < |rows| && rows[i].state.Open? && now < rows[i].expiresAt
    requires |rows[i].chunks| < c.maxChunks && c.chunkMinBytes <= |piece| <= c.chunkMaxBytes
    requires |Content(rows[i].chunks)| + |piece| <= rows[i].declaredBytes
    ensures var r := AppendOf(c, sha, rows, rows[i].id, |Content(rows[i].chunks)|, piece, sha(piece), now);
            var longer := Extended(rows[i], piece);
            var bytes := Content(rows[i].chunks) + piece;
            && Content(longer.chunks) == bytes
            && r.0 == if |bytes| < longer.declaredBytes then rows[i := longer]
                      else if longer.expectedHash.None? || longer.expectedHash.value == sha(bytes)
                      then rows[i := Finalised(c, longer, sha(bytes), now)]
                      else rows
  {
    FoundWhereItIs(rows, i);
    assert RowOk(c, sha, rows[i]);
    ExtendedOk(c, sha, rows[i], piece);
  }

  lemma AppendAside<D>(c: Limits, sha: Bytes -> D, rows: seq<Row<D>>, i: nat, op: Op<D>)
    requires Valid(c, sha, rows) && i < |rows| && rows[i].state.Open? && op.now < rows[i].expiresAt
    requires op.AppendChunk? && (op.id == rows[i].id ==> op.offset != rows[i].receivedBytes)
    ensures i < |Apply(c, sha, rows, op)| && Apply(c, sha, rows, op)[i] == rows[i]
  {
    FoundWhereItIs(rows, i);
  }

  lemma AbortOrRetainAside<D>(c: Limits, sha: Bytes -> D, rows: seq<Row<D>>, i: nat, op: Op<D>)
    requires Valid(c, sha, rows) && i < |rows| && rows[i].state.Open?
    requires op.RetainUpload? || (op.AbortUpload? && op.id != rows[i].id)
    ensures i < |Apply(c, sha, rows, op)| && Apply(c, sha, rows, op)[i] == rows[i]
  {
    FoundWhereItIs(rows, i);
  }

  // What happens beside the upload leaves its row exactly as it was.
  lemma AsideKeepsRow<D>(c: Limits, sha: Bytes -> D, rows: seq<Row<D>>, i: nat, op: Op<D>)
    requires Valid(c, sha, rows) && i < |rows| && rows[i].state.Open? && op.now < rows[i].expiresAt
    requires IsAside(rows[i].id, op, rows[i].receivedBytes)
    ensures i < |Apply(c, sha, rows, op)| && Apply(c, sha, rows, op)[i] == rows[i]
  {
    match op
    case BeginUpload(_, _, _) =>
    case AppendChunk(_, _, _, _, _) => AppendAside(c, sha, rows, i, op);
    case CompleteUpload(id, expected, now) => CompleteNeverFinishes(c, sha, rows, id, expected, now);
    case SweepAll(now) => SweepExact(rows, now);
    case _ => AbortOrRetainAside(c, sha, rows, i, op);
  }

  // As long as bytes are missing, the upload is open and holds exactly the pieces sent.
  lemma {:induction false} UploadSoFar<D>(c: Limits, sha: Bytes -> D, rows: seq<Row<D>>, i: nat, ops: seq<Op<D>>,
        pieces: seq<Bytes>, total: nat)
    requires Valid(c, sha, rows) && i < |rows| && Fresh(rows, i, total) && AllBefore(ops, rows[i].expiresAt)
    requires Sends(sha, rows[i].id, ops, pieces) && Sendable(c, pieces) && |Joined(pieces)| < total
    ensures Valid(c, sha, Run(c, sha, rows, ops)) && Holding(Run(c, sha, rows, ops), i, rows[i], Joined(pieces), |pieces|)
    decreases |ops|
  {
    if ops != [] {
      var before, op := ops[..|ops| - 1], ops[|ops| - 1];
      assert op in ops;
      if IsPiece(sha, rows[i].id, op, pieces) && Sends(sha, rows[i].id, before, pieces[..|pieces| - 1]) {
        var n := |pieces| - 1;
        JoinedPrefix(pieces, n);
        UploadSoFar(c, sha, rows, i, before, pieces[..n], total);
        AppendPiece(c, sha, Run(c, sha, rows, before), i, pieces[n], op.now);
      } else {
        UploadSoFar(c, sha, rows, i, before, pieces, total);
        assert RowOk(c, sha, Run(c, sha, rows, before)[i]);
        AsideKeepsRow(c, sha, Run(c, sha, rows, before), i, op);
      }
      ApplyKeeps(c, sha, Run(c, sha, rows, before), op);
    }
  }

  // However a client cuts its bytes into pieces, and whatever else happens before the upload expires,
  // the call that sends the last of them leaves the upload complete with exactly those bytes if no
  // other hash was promised; if one was, that call is refused and can be made again.
  lemma {:induction false} UploadArrivesWhole<D>(c: Limits, sha: Bytes -> D, rows: seq<Row<D>>, i: nat, ops: seq<Op<D>>,
        pieces: seq<Bytes>, total: nat)
    requires Valid(c, sha, rows) && i < |rows| && Fresh(rows, i, total) && AllBefore(ops, rows[i].expiresAt)
    requires Sendable(c, pieces) && |Joined(pieces)| == total
    requires ops != [] && IsPiece(sha, rows[i].id, ops[|ops| - 1], pieces)
    requires Sends(sha, rows[i].id, ops[..|ops| - 1], pieces[..|pieces| - 1])
    ensures var after := Run(c, sha, rows, ops);
            if rows[i].expectedHash.None? || rows[i].expectedHash.value == sha(Joined(pieces))
            then Arrived(after, i, sha, Joined(pieces))
            else Holding(after, i, rows[i], Joined(pieces[..|pieces| - 1]), |pieces| - 1)
  {
    var n := |pieces| - 1;
    var before := Run(c, sha, rows, ops[..|ops| - 1]);
    JoinedPrefix(pieces, n);
    UploadSoFar(c, sha, rows, i, ops[..|ops| - 1], pieces[..n], total);
    assert ops[|ops| - 1] in ops;
    AppendPiece(c, sha, before, i, pieces[n], ops[|ops| - 1].now);
  }

  ghost predicate Arrived<D>(rows: seq<Row<D>>, i: nat, sha: Bytes -> D, bytes: Bytes) {
    i < |rows| && rows[i].state.Complete? && Content(rows[i].chunks) == bytes && rows[i].finalHash == Some(sha(bytes))
  }

  // When equal hashes mean equal bytes, a complete row holds the bytes whose hash was promised.
  lemma {:induction false} PromisedBytes<D>(c: Limits, sha: Bytes -> D, ops: seq<Op<D>>, i: nat, bytes: Bytes)
    requires forall a, b :: sha(a) == sha(b) ==> a == b
    requires i < |Run(c, sha, [], ops)| && Run(c, sha, [], ops)[i].state.Complete?
    requires Run(c, sha, [], ops)[i].expectedHash == Some(sha(bytes))
    ensures Content(Run(c, sha, [], ops)[i].chunks) == bytes
  {
    RunKeeps(c, sha, ops);
    assert RowOk(c, sha, Run(c, sha, [], ops)[i]);
  }

  // ----- Reading back -----

  lemma Associative(a: Bytes, b: Bytes, c: Bytes)
    ensures (a + b) + c == a + (b + c)
  {
  }

  // Draining a stream yields what it still has to yield; it fails only on a chunk with no bytes, which
  // no valid table holds.
  method Drain(stream: ReadStream) returns (r: Result<Bytes, Error>)
    requires stream.Valid()
    modifies stream
    ensures r.Ok? ==> r.value == old(stream.Remaining())
    ensures (forall chunk :: chunk in stream.chunks ==> chunk.data != []) ==> r.Ok?
  {
    var bytes: Bytes := [];
    while true
      invariant stream.Valid()
      invariant bytes + stream.Remaining() == old(stream.Remaining())
      decreases |stream.Remaining()|
    {
      var next := stream.Next();
      if next.Err? { return Err(next.error); }
      if next.value.None? { return Ok(bytes); }
      Associative(bytes, next.value.value, stream.Remaining());
      bytes := bytes + next.value.value;
    }
  }

  // Whatever the slice size, draining the stream of some chunks yields their content.
  method ReadAll(chunks: seq<Chunk>, slice: Option<nat>) returns (r: Result<Bytes, Error>)
    ensures r.Ok? ==> r.value == Content(chunks)
    ensures (forall chunk :: chunk in chunks ==> chunk.data != []) ==> r.Ok?
  {
    var stream := new ReadStream(chunks, slice);
    r := Drain(stream);
  }

  // Row `i` once it has arrived, after whatever else: complete and with its bytes, or expired.
  lemma ArrivedForGood<D>(c: Limits, sha: Bytes -> D, rows: seq<Row<D>>, later: seq<Op<D>>, i: nat, bytes: Bytes)
    requires Valid(c, sha, rows) && Arrived(rows, i, sha, bytes) && c.chunkMinBytes >= 1
    ensures Readable(Run(c, sha, rows, later), i, rows[i].id, bytes)
  {
    RunFollows(c, sha, rows, later);
    var after := Run(c, sha, rows, later);
    assert Follows(rows[i], after[i]) && RowOk(c, sha, after[i]);
    FoundWhereItIs(after, i);
  }

  lemma UploadStays<D>(c: Limits, sha: Bytes -> D, rows: seq<Row<D>>, i: nat, ops: seq<Op<D>>, pieces: seq<Bytes>,
        later: seq<Op<D>>)
    requires Valid(c, sha, rows) && c.chunkMinBytes >= 1
    requires i < |rows| && Fresh(rows, i, |Joined(pieces)|) && AllBefore(ops, rows[i].expiresAt)
    requires Sendable(c, pieces) && ops != [] && IsPiece(sha, rows[i].id, ops[|ops| - 1], pieces)
    requires Sends(sha, rows[i].id, ops[..|ops| - 1], pieces[..|pieces| - 1])
    requires rows[i].expectedHash.None? || rows[i].expectedHash.value == sha(Joined(pieces))
    ensures Readable(Run(c, sha, Run(c, sha, rows, ops), later), i, rows[i].id, Joined(pieces))
  {
    UploadArrivesWhole(c, sha, rows, i, ops, pieces, |Joined(pieces)|);
    RunFollows(c, sha, rows, ops);
    assert Follows(rows[i], Run(c, sha, rows, ops)[i]);
    ArrivedForGood(c, sha, Run(c, sha, rows, ops), later, i, Joined(pieces));
  }

  // Row `i` is what `id` finds, and is complete with these bytes, or expired.
  ghost predicate Readable<D>(rows: seq<Row<D>>, i: nat, id: string, bytes: Bytes) {
    && i < |rows| && Find(rows, id) == Some(i) && (rows[i].state.Complete? || rows[i].state.Expired?)
    && Content(rows[i].chunks) == bytes && forall chunk :: chunk in rows[i].chunks ==> chunk.data != []
  }

  // From end to end: what a client uploaded, cut as it pleased and amid whatever else, is what is read
  // under the id it was given, at any later time and for every slice size, until it has expired.
  method ReadUpload<D(==)>(store: AttachmentStore<D>, ghost rows: seq<Row<D>>, ghost i: nat, ghost ops: seq<Op<D>>,
                           ghost pieces: seq<Bytes>, ghost later: seq<Op<D>>, id: string, slice: Option<nat>)
    returns (r: Result<Bytes, Error>)
    requires Valid(store.limits, store.sha, rows) && store.limits.chunkMinBytes >= 1
    requires i < |rows| && id == rows[i].id && Fresh(rows, i, |Joined(pieces)|) && AllBefore(ops, rows[i].expiresAt)
    requires Sendable(store.limits, pieces) && ops != [] && IsPiece(store.sha, id, ops[|ops| - 1], pieces)
    requires Sends(store.sha, id, ops[..|ops| - 1], pieces[..|pieces| - 1])
    requires rows[i].expectedHash.None? || rows[i].expectedHash.value == store.sha(Joined(pieces))
    requires store.rows == Run(store.limits, store.sha, Run(store.limits, store.sha, rows, ops), later)
    ensures i < |store.rows| && (r.Ok? <==> !store.rows[i].state.Expired?)
    ensures r.Ok? ==> r.value == Joined(pieces)
  {
    UploadStays(store.limits, store.sha, rows, i, ops, pieces, later);
    var stream := store.OpenReadStream(id, slice);
    if stream.Err? { return Err(stream.error); }
    r := Drain(stream.value);
  }
}
