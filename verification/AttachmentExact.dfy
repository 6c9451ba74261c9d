// Every answer of the attachment store, in terms of the bytes that an upload holds rather than of its
// chunks, and what each operation leaves.
module AttachmentExact {
  import opened Wrappers
  import opened Attachments
  import opened AttachmentProofs

  function Held<D>(row: Row<D>): Bytes {
    Content(row.chunks)
  }

  // ----- Beginning -----

  lemma {:induction false} OpenIsCount<D>(rows: seq<Row<D>>)
    ensures OpenCount(rows) == |set i | 0 <= i < |rows| && rows[i].state.Open?|
  {
    var all := set i | 0 <= i < |rows| && rows[i].state.Open?;
    if rows == [] {
      assert all == {};
    } else {
      var n := |rows| - 1;
      var rest := rows[..n];
      OpenIsCount(rest);
      var before := set i | 0 <= i < |rest| && rest[i].state.Open?;
      assert all == if rows[n].state.Open? then before + {n} else before;
    }
  }

  // A declaration differs from what an upload was begun with: by its hash when both have one, and otherwise
  // by its size or its type.
  predicate Differs<D(==)>(row: Row<D>, input: BeginInput<D>) {
    if row.expectedHash.Some? && input.hash.Some? then row.expectedHash.value != input.hash.value
    else row.declaredBytes as int != input.totalBytes || row.contentType != input.contentType
  }

  // A known retry identity finds its upload, and says whether the declaration is still the same; a new
  // upload is begun if its size is in bounds and not too many are open, and is empty until its time is up.
  lemma BeginEffect<D>(c: Limits, sha: Bytes -> D, rows: seq<Row<D>>, input: BeginInput<D>, newId: string, now: int)
    requires Valid(c, sha, rows)
    ensures var (rows', r) := BeginOf(c, rows, input, newId, now);
            if input.totalBytes <= 0 then r == Err(BadRequest) && rows' == rows
            else if input.totalBytes > c.maxAttachmentBytes then r == Err(TooLarge) && rows' == rows
            else if input.clientUploadId != "" && exists i :: 0 <= i < |rows| && rows[i].clientUploadId == input.clientUploadId
            then && rows' == rows
                 && forall i :: 0 <= i < |rows| && rows[i].clientUploadId == input.clientUploadId ==>
                      r == Ok((rows[i].id, if Differs(rows[i], input) then Mismatched else Duplicated))
            else if |set i | 0 <= i < |rows| && rows[i].state.Open?| >= c.maxOpen then r == Err(LimitExceeded) && rows' == rows
            else if exists i :: 0 <= i < |rows| && rows[i].id == newId then r == Err(IdReused) && rows' == rows
            else
              && r == Ok((newId, Created)) && |rows'| == |rows| + 1 && rows'[..|rows|] == rows
              && var row := rows'[|rows|];
              && row.id == newId && row.clientUploadId == input.clientUploadId && row.contentType == input.contentType
              && row.expectedHash == input.hash && row.finalHash.None? && row.expiresAt == now + c.ttlMs
              && Fresh(rows', |rows|, input.totalBytes) && row.receivedBytes == 0
  {
    OpenIsCount(rows);
    UnknownId(rows, newId);
    UnknownUpload(rows, input.clientUploadId);
    forall i | 0 <= i < |rows| && rows[i].clientUploadId == input.clientUploadId && input.clientUploadId != ""
      ensures FindUpload(rows, input.clientUploadId) == Some(i)
    {
      UploadFoundWhereItIs(rows, i);
    }
  }

  lemma UnknownId<D>(rows: seq<Row<D>>, id: string)
    ensures Find(rows, id).None? <==> forall i :: 0 <= i < |rows| ==> rows[i].id != id
  {
    if Find(rows, id).None? {
      AttachmentProofs.NotFound(rows, id);
    }
  }

  lemma UnknownUpload<D>(rows: seq<Row<D>>, clientUploadId: string)
    ensures FindUpload(rows, clientUploadId).None? <==> forall i :: 0 <= i < |rows| ==> rows[i].clientUploadId != clientUploadId
  {
    if FindUpload(rows, clientUploadId).None? {
      UploadNotFound(rows, clientUploadId);
    }
  }

  // ----- Appending -----

  lemma HeldMore<D>(row: Row<D>, payload: Bytes)
    ensures Held(Extended(row, payload)) == Held(row) + payload
  {
    assert Extended(row, payload).chunks[..|row.chunks|] == row.chunks;
  }

  // What a chunk of a good size and hash makes of one upload.
  ghost predicate Answers<D>(c: Limits, sha: Bytes -> D, row: Row<D>, row': Row<D>, r: Result<AppendKind, Error>, offset: nat,
                             payload: Bytes, now: int)
  {
    var held := Held(row);
    if row.state.Complete? then row' == row && r == if offset + |payload| == |held| then Ok(Duplicate) else Err(Conflict)
    else if row.state.Aborted? then r == Err(Released) && row' == row
    else if row.state.Expired? || row.expiresAt <= now then r == Err(Expiry) && row' == row
    else if offset != |held| then r == Ok(OutOfOrder(|held|)) && row' == row
    else if |held| + |payload| > row.declaredBytes then r == Err(BadChunk) && row' == row
    else if |row.chunks| >= c.maxChunks then r == Err(LimitExceeded) && row' == row
    else if |held| + |payload| < row.declaredBytes then
      r == Ok(Accepted) && Receives(row, row', payload) && row'.state.Open? && row'.finalHash.None?
      && row'.expiresAt == row.expiresAt
    else if row.expectedHash.Some? && row.expectedHash.value != sha(held + payload) then r == Err(BadHash) && row' == row
    else
      r == Ok(Accepted) && Receives(row, row', payload) && row'.state.Complete?
      && row'.finalHash == Some(sha(held + payload)) && row'.expiresAt == now + c.completedTtlMs
  }

  lemma AppendToEffect<D>(c: Limits, sha: Bytes -> D, row: Row<D>, offset: nat, payload: Bytes, now: int)
    requires RowOk(c, sha, row)
    ensures match AppendTo(c, sha, row, offset, payload, now)
            case Ok((row', kind)) => Answers(c, sha, row, row', Ok(kind), offset, payload, now)
            case Err(error) => Answers(c, sha, row, row, Err(error), offset, payload, now)
  {
    HeldMore(row, payload);
  }

  // What a chunk makes of the upload that it is sent for, told by the bytes that the upload holds.
  lemma AppendEffect<D>(c: Limits, sha: Bytes -> D, rows: seq<Row<D>>, i: nat, offset: nat, payload: Bytes, contentHash: D,
        now: int)
    requires Valid(c, sha, rows) && i < |rows|
    ensures var (rows', r) := AppendOf(c, sha, rows, rows[i].id, offset, payload, contentHash, now);
            if |payload| < c.chunkMinBytes || |payload| > c.chunkMaxBytes then r == Err(BadChunk) && rows' == rows
            else if contentHash != sha(payload) then r == Err(BadHash) && rows' == rows
            else |rows'| == |rows| && rows' == rows[i := rows'[i]] && Answers(c, sha, rows[i], rows'[i], r, offset, payload, now)
  {
    FoundWhereItIs(rows, i);
    assert RowOk(c, sha, rows[i]);
    AppendToEffect(c, sha, rows[i], offset, payload, now);
  }

  // The upload holds these bytes more, in one chunk more; what was declared for it stays.
  ghost predicate Receives<D>(row: Row<D>, row': Row<D>, payload: Bytes) {
    && Held(row') == Held(row) + payload && row'.receivedBytes == |Held(row')| && |row'.chunks| == |row.chunks| + 1
    && row'.id == row.id && row'.clientUploadId == row.clientUploadId && row'.contentType == row.contentType
    && row'.declaredBytes == row.declaredBytes && row'.expectedHash == row.expectedHash
  }

  // Every operation on an id that nobody was given.
  lemma UnknownEffect<D>(c: Limits, sha: Bytes -> D, rows: seq<Row<D>>, id: string, payload: Bytes, offset: nat,
        expected: Option<D>, until: int, now: int)
    requires forall i :: 0 <= i < |rows| ==> rows[i].id != id
    ensures c.chunkMinBytes <= |payload| <= c.chunkMaxBytes ==>
              AppendOf(c, sha, rows, id, offset, payload, sha(payload), now) == (rows, Err(Error.NotFound))
    ensures CompleteOf(c, sha, rows, id, expected, now) == (rows, Err(Error.NotFound))
    ensures AbortOf(rows, id, now) == (rows, Err(Error.NotFound))
    ensures RetainOf(rows, id, until, now) == (rows, Err(Error.NotFound))
  {
    UnknownId(rows, id);
  }

  // ----- Ending -----

  // An explicit completion only reports: what was completed, let go or expired is said to be so, and an
  // upload that is open still misses bytes.
  lemma CompleteEffect<D>(c: Limits, sha: Bytes -> D, rows: seq<Row<D>>, i: nat, expected: Option<D>, now: int)
    requires Valid(c, sha, rows) && i < |rows|
    ensures var (rows', r) := CompleteOf(c, sha, rows, rows[i].id, expected, now);
            && rows' == rows
            && r == if rows[i].state.Complete? then Ok(()) else if rows[i].state.Aborted? then Err(Released)
                    else if rows[i].state.Expired? || rows[i].expiresAt <= now then Err(Expiry) else Err(Incomplete)
  {
    FoundWhereItIs(rows, i);
    assert RowOk(c, sha, rows[i]);
  }

  // Letting go of an open upload in time; of one let go before, again; and of no other.
  lemma AbortEffect<D>(c: Limits, sha: Bytes -> D, rows: seq<Row<D>>, i: nat, now: int)
    requires Valid(c, sha, rows) && i < |rows|
    ensures var (rows', r) := AbortOf(rows, rows[i].id, now);
            if rows[i].state.Complete? then r == Err(Conflict) && rows' == rows
            else if rows[i].state.Aborted? then r == Ok(()) && rows' == rows
            else if rows[i].state.Expired? || rows[i].expiresAt <= now then r == Err(Expiry) && rows' == rows
            else r == Ok(()) && |rows'| == |rows| && rows' == rows[i := rows[i].(state := Aborted)]
  {
    FoundWhereItIs(rows, i);
  }

  // Retaining moves the expiry of a complete upload to the later of what it was and what is asked for, but
  // no further than seven days from now.
  lemma RetainEffect<D>(c: Limits, sha: Bytes -> D, rows: seq<Row<D>>, i: nat, until: int, now: int)
    requires Valid(c, sha, rows) && i < |rows|
    ensures var (rows', r) := RetainOf(rows, rows[i].id, until, now);
            if !rows[i].state.Complete? then r == Err(Error.NotFound) && rows' == rows
            else
              && r == Ok(()) && |rows'| == |rows| && rows' == rows[i := rows[i].(expiresAt := rows'[i].expiresAt)]
              && var wanted, week := if until > rows[i].expiresAt then until else rows[i].expiresAt, now + 604_800_000;
              rows'[i].expiresAt == if wanted < week then wanted else week
  {
    FoundWhereItIs(rows, i);
  }

  // ----- Sweeping -----

  ghost predicate OnceEach(ids: seq<string>) {
    forall i, j :: 0 <= i < j < |ids| ==> ids[i] != ids[j]
  }

  // An upload with this id is in this state and its time is up.
  ghost predicate DueIn<D>(rows: seq<Row<D>>, state: State, id: string, now: int) {
    exists i :: 0 <= i < |rows| && rows[i].id == id && rows[i].state == state && rows[i].expiresAt <= now
  }

  // The ids that one half of a sweep reports are those of the uploads that it ends, each once.
  lemma {:induction false} ReapedExactly<D>(rows: seq<Row<D>>, state: State, now: int, id: string)
    requires Distinct(rows)
    ensures id in Reaped(rows, state, now) <==> DueIn(rows, state, id, now)
    ensures OnceEach(Reaped(rows, state, now))
  {
    if rows != [] {
      var n := |rows| - 1;
      ReapedExactly(rows[..n], state, now, id);
      forall k | 0 <= k < |Reaped(rows[..n], state, now)| ensures Reaped(rows[..n], state, now)[k] != rows[n].id {
        ReapedExactly(rows[..n], state, now, Reaped(rows[..n], state, now)[k]);
        assert Reaped(rows[..n], state, now)[k] in Reaped(rows[..n], state, now);
      }
      assert forall i :: 0 <= i < n ==> rows[i] == rows[..n][i];
    }
  }

  // The first half of a sweep leaves what the second looks for as it is.
  lemma SecondHalf<D>(rows: seq<Row<D>>, now: int, id: string)
    requires Distinct(rows)
    ensures Distinct(Reap(rows, Open, now))
    ensures DueIn(Reap(rows, Open, now), Complete, id, now) <==> DueIn(rows, Complete, id, now)
  {
    ReapAt(rows, Open, now);
    var mid := Reap(rows, Open, now);
    forall i | 0 <= i < |rows|
      ensures mid[i].id == rows[i].id
           && (mid[i].state.Complete? && mid[i].expiresAt <= now <==> rows[i].state.Complete? && rows[i].expiresAt <= now)
    {
    }
    if i :| 0 <= i < |rows| && rows[i].id == id && rows[i].state == Complete && rows[i].expiresAt <= now {
      assert mid[i].id == id && mid[i].state == Complete && mid[i].expiresAt <= now;
    }
  }

  // A sweep reports each upload that it ends once, and no other.
  lemma SweptExactly<D>(rows: seq<Row<D>>, now: int, id: string)
    requires Distinct(rows)
    ensures id in Reaped(rows, Open, now) + Reaped(Reap(rows, Open, now), Complete, now)
       <==> exists i :: 0 <= i < |rows| && rows[i].id == id && Live(rows[i]) && rows[i].expiresAt <= now
    ensures OnceEach(Reaped(rows, Open, now) + Reaped(Reap(rows, Open, now), Complete, now))
  {
    var mid := Reap(rows, Open, now);
    SecondHalf(rows, now, id);
    ReapedExactly(rows, Open, now, id);
    ReapedExactly(mid, Complete, now, id);
    SweptOnce(rows, now, Reaped(rows, Open, now), Reaped(mid, Complete, now));
  }

  lemma SweptOnce<D>(rows: seq<Row<D>>, now: int, first: seq<string>, second: seq<string>)
    requires Distinct(rows) && first == Reaped(rows, Open, now) && second == Reaped(Reap(rows, Open, now), Complete, now)
    requires OnceEach(first) && OnceEach(second)
    ensures OnceEach(first + second)
  {
    forall a, b | 0 <= a < |first| && 0 <= b < |second| ensures first[a] != second[b] {
      NeverBoth(rows, now, first[a]);
      assert first[a] in first && second[b] in second;
    }
  }

  lemma NeverBoth<D>(rows: seq<Row<D>>, now: int, id: string)
    requires Distinct(rows)
    ensures id !in Reaped(rows, Open, now) || id !in Reaped(Reap(rows, Open, now), Complete, now)
  {
    SecondHalf(rows, now, id);
    ReapedExactly(rows, Open, now, id);
    ReapedExactly(Reap(rows, Open, now), Complete, now, id);
    forall i, j | 0 <= i < |rows| && 0 <= j < |rows| && rows[i].id == rows[j].id ensures i == j {
    }
  }
}
