// How a client resumes a stream: the choice between current, replay and snapshot.
module Streams {
  import opened Wrappers
  import Cursors
  import opened Journal
  import opened Snapshots
  import opened Unicode

  datatype SyncMode = Current | Replay | SnapshotRequired

  datatype StreamSync = StreamSync(mode: SyncMode, baseline: Option<nat>, events: seq<StoredEvent>, currentCursor: nat)

  datatype SyncError = CursorInvalid | Store(error: StoreError)

  function SyncOf(t: Tables, id: string, afterCursor: Option<string>): Result<StreamSync, SyncError> {
    if id !in t.streams then Err(Store(NotFound))
    else if afterCursor.Some? && !Cursors.Canonical(afterCursor.value) then Err(CursorInvalid)
    else if !t.writable then Err(Store(ReadOnly))
    else
      var s := t.streams[id];
      if afterCursor.Some? && Cursors.Parse(afterCursor.value) == s.current then
        Ok(StreamSync(Current, None, [], s.current))
      else if afterCursor.Some? && s.floor <= Cursors.Parse(afterCursor.value) < s.current then
        Ok(StreamSync(Replay, None, Select(s.events, Cursors.Parse(afterCursor.value), s.current), s.current))
      else
        Ok(StreamSync(SnapshotRequired, Some(s.current), Select(s.events, s.current, s.current), s.current))
  }

  class StreamService {
    const store: BridgeStore
    const maxSnapshotPartBytes: nat

    constructor (store: BridgeStore, maxSnapshotPartBytes: nat)
      ensures this.store == store && this.maxSnapshotPartBytes == maxSnapshotPartBytes
    {
      this.store := store;
      this.maxSnapshotPartBytes := maxSnapshotPartBytes;
    }

    // `state` is the JSON text of the stream's state row, captured with the snapshot.
    method Sync(id: string, afterCursor: Option<string>, state: seq<CodePoint>)
      returns (r: Result<StreamSync, SyncError>, parts: seq<Part>)
      ensures r == SyncOf(store.Contents(), id, afterCursor)
      ensures if r.Ok? && r.value.mode.SnapshotRequired? then IsFragmentation(parts, state, maxSnapshotPartBytes)
              else parts == []
    {
      parts := [];
      var position := store.StreamPosition(id);
      if position.None? { return Err(Store(NotFound)), []; }
      if afterCursor.Some? {
        var after := afterCursor.value;
        var checked := Cursors.CompareDecimalCursors(after, Cursors.Print(position.value.0));
        Cursors.ParsePrint(position.value.0);
        if checked.Err? { return Err(CursorInvalid), []; }
        var replay := store.ReadReplay(id, Cursors.Parse(after));
        if replay.Err? { return Err(Store(replay.error)), []; }
        var (current, floor, events) := replay.value;
        Cursors.ParsePrint(current);
        Cursors.ParsePrint(floor);
        Cursors.OrdersAgree(after, Cursors.Print(current));
        Cursors.OrdersAgree(after, Cursors.Print(floor));
        var toCurrent := Cursors.CompareDecimalCursors(after, Cursors.Print(current)).value;
        if toCurrent == 0 { return Ok(StreamSync(Current, None, [], current)), []; }
        var invalid := Cursors.CompareDecimalCursors(after, Cursors.Print(floor)).value < 0 || toCurrent > 0;
        if !invalid { return Ok(StreamSync(Replay, None, events, current)), []; }
      }
      var snapshot := store.StreamPosition(id);
      var baseline := snapshot.value.0;
      var replay := store.ReadReplay(id, baseline);
      if replay.Err? { return Err(Store(replay.error)), []; }
      parts := Fragment(state, maxSnapshotPartBytes);
      r := Ok(StreamSync(SnapshotRequired, Some(baseline), replay.value.2, replay.value.0));
    }
  }
}
