// Requests and runs that show where a subscription's wire is not the journal.
module SubscriptionWitnesses {
  import opened Wrappers
  import Cursors
  import opened Journal
  import opened JournalProofs
  import opened Streams
  import opened Subscription
  import opened SubscriptionProofs

  // ----- A subscription whose wire repeats an event -----

  const STREAM := "host:" + "11111111-1111-4111-8111-111111111111"
  const BODY := EventBody("event-1", "host.state", "{}", 2)
  const FIRST := StoredEvent(1, BODY)
  const TWICE: seq<Request> := [Request(STREAM, Full, Some("0")), Request(STREAM, Full, Some("0"))]
  const ONE_EVENT: seq<Op> := [CreateStream(STREAM), Append(STREAM, BODY)]
  const FRESH_SOCKET := Socket(map[], false, false, [], [], [])

  lemma OneEventJournal()
    ensures var t := Run(ONE_EVENT);
            && t == Tables(map[STREAM := Stream(1, 0, map[1 := BODY])], map[], map[], true)
            && History(ONE_EVENT, STREAM) == [BODY]
  {
    var one := [CreateStream(STREAM)];
    assert one[..0] == [] && ONE_EVENT[..1] == one;
    assert Run(one) == EMPTY.(streams := map[STREAM := Stream(0, 0, map[])]);
    assert History(one, STREAM) == [];
    assert !EventIdTaken(Run(one).streams, BODY.eventId);
  }

  lemma CountTwo(a: Request, b: Request, p: Request -> bool)
    ensures CountIf([a, b], p) == (if p(a) then 1 else 0) + (if p(b) then 1 else 0)
  {
    assert [a, b][..1] == [a] && [a][..0] == [];
    assert CountIf([a], p) == if p(a) then 1 else 0;
  }

  lemma StreamIsNoSession()
    ensures !IsSession(STREAM)
  {
    assert STREAM[..8][0] == STREAM[0] == "host:"[0] == 'h' && "session:"[0] == 's';
  }

  lemma TwiceIsValid()
    ensures ValidSubscriptions(STREAM, TWICE)
  {
    StreamIsNoSession();
    assert TWICE[0] in TWICE;
    forall p: Request -> bool ensures CountIf(TWICE, p) == (if p(TWICE[0]) then 1 else 0) + (if p(TWICE[1]) then 1 else 0) {
      CountTwo(TWICE[0], TWICE[1], p);
      assert TWICE == [TWICE[0], TWICE[1]];
    }
  }

  lemma TwiceDetails()
    ensures Details(TWICE) == map[STREAM := Full]
  {
    assert TWICE[..1] == [TWICE[0]] && [TWICE[0]][..0] == [];
    assert Details([TWICE[0]]) == map[STREAM := Full];
  }

  // A socket that flushes with nothing in its buffer.
  function FlushedEmpty(host: Host, s: Socket): Socket {
    s.(syncing := false, synchronized := true, pending := [], awaited := [],
       sent := s.sent + OutboundAll(host, s.awaited) + LiveTail(host, s.subscriptions, []))
  }

  ghost function TwiceFlushed(host: Host, visible: string -> bool): Socket {
    FlushedEmpty(host, Waiting(host, visible, ONE_EVENT, TWICE, [], FRESH_SOCKET))
  }

  lemma TwiceIsSubscribed(host: Host, visible: string -> bool)
    ensures var flushed := TwiceFlushed(host, visible);
            Subscribed(host, visible, ONE_EVENT, TWICE, [], [], FRESH_SOCKET, flushed, flushed)
  {
    var waiting := Waiting(host, visible, ONE_EVENT, TWICE, [], FRESH_SOCKET);
    var flushed := FlushedEmpty(host, waiting);
    assert waiting.pending == [];
    assert FlushedAs(host, waiting, flushed, []);
    assert Listen(host, flushed, Emitted(ONE_EVENT + [], [])) == flushed;
  }

  // A client that names the host stream twice, both times from its start, is sent its event twice.
  lemma RepeatedEntryWitness(host: Host, visible: string -> bool)
    requires host.frameBytes(LiveEvent(STREAM, FIRST)) <= MAX_JSON_BYTES
    ensures var flushed := TwiceFlushed(host, visible);
            && ValidSubscriptions(STREAM, TWICE)
            && Subscribed(host, visible, ONE_EVENT, TWICE, [], [], FRESH_SOCKET, flushed, flushed)
            && Events(flushed.sent, STREAM) == [FIRST, FIRST] && !Contiguous(Events(flushed.sent, STREAM))
  {
    var flushed := TwiceFlushed(host, visible);
    TwiceIsValid();
    TwiceDetails();
    TwiceIsSubscribed(host, visible);
    TwiceReplays(host, visible);
    OneEventJournal();
    assert ONE_EVENT + [] + [] == ONE_EVENT;
    UncompactedIsUnrepeated(host, visible, ONE_EVENT, TWICE, [], STREAM);
    var frames := WireExact(host, visible, ONE_EVENT, TWICE, [], [], FRESH_SOCKET, flushed, flushed, STREAM);
    assert FRESH_SOCKET.sent + frames == frames;
    assert Numbered([BODY], 1, 1) == [];
    assert [FIRST, FIRST][1].cursor != [FIRST, FIRST][0].cursor + 1;
  }

  lemma TwiceReplays(host: Host, visible: string -> bool)
    requires host.frameBytes(LiveEvent(STREAM, FIRST)) <= MAX_JSON_BYTES
    ensures Replayed(host, Run(ONE_EVENT), TWICE, visible, STREAM) == [FIRST, FIRST]
  {
    OneEventJournal();
    FirstIsReplayedTwice(host, Run(ONE_EVENT), visible);
  }

  lemma FirstIsReplayedTwice(host: Host, t: Tables, visible: string -> bool)
    requires host.frameBytes(LiveEvent(STREAM, FIRST)) <= MAX_JSON_BYTES && KeepsFirst(t)
    ensures Replayed(host, t, TWICE, visible, STREAM) == [FIRST, FIRST]
  {
    FromTheStart(t);
    StreamIsNoSession();
    assert [FIRST][..0] == [] && Delivered(host, STREAM, Full, [FIRST]) == [FIRST];
    assert TWICE[..1] == [TWICE[0]] && [TWICE[0]][..0] == [];
    assert Replayed(host, t, [TWICE[0]], visible, STREAM) == [] + [FIRST];
  }

  ghost predicate KeepsFirst(t: Tables) {
    t.writable && STREAM in t.streams && t.streams[STREAM] == Stream(1, 0, map[1 := BODY])
  }

  // A client at the start of the stream gets its one event.
  lemma FromTheStart(t: Tables)
    requires KeepsFirst(t)
    ensures SyncOf(t, STREAM, Some("0")) == Ok(StreamSync(Replay, None, [FIRST], 1))
    ensures StartOf(SyncOf(t, STREAM, Some("0")).value, Some("0")) == 0
  {
    assert Cursors.Parse("0") == 0 by {
      assert "0"[..0] == "";
    }
    SelectContiguous(t.streams[STREAM], [BODY], 0, 1);
    assert Numbered([BODY], 0, 1) == [FIRST];
  }

  // ----- A subscription that misses an event with a used id -----

  const SECOND := StoredEvent(2, BODY)
  const ONCE: seq<Request> := [Request(STREAM, Full, Some("0"))]
  const ACKED: seq<Op> := ONE_EVENT + [SetCredential("phone", Credential(false, None)), Ack("phone", STREAM, 1)]
  const COMPACTION := Compact([STREAM], MAX_EVENT_COMPACTION_ROWS, MAX_EVENT_COMPACTION_BYTES, 0)
  const REUSED: seq<Op> := [COMPACTION, Append(STREAM, BODY)]

  ghost predicate OneAcked(t: Tables, floor: nat) {
    && floor <= 1 && t.writable
    && t.streams == map[STREAM := Stream(1, floor, if floor == 0 then map[1 := BODY] else map[])]
    && t.acks == map[("phone", STREAM) := 1] && t.credentials == map["phone" := Credential(false, None)]
  }

  lemma AckedJournal()
    ensures OneAcked(Run(ACKED), 0) && History(ACKED, STREAM) == [BODY]
  {
    var known := ONE_EVENT + [SetCredential("phone", Credential(false, None))];
    OneEventJournal();
    assert known[..2] == ONE_EVENT && ACKED[..3] == known;
    assert History(known, STREAM) == [BODY];
  }

  lemma OneStreamPass(t: Tables, p: Pass, maxRows: nat, maxBytes: nat, at: int)
    requires STREAM in p.streams && p.rows < maxRows && p.bytes < maxBytes
    ensures CompactFrom(t, [STREAM], p, maxRows, maxBytes, at) == CompactStream(t, STREAM, p, maxRows, maxBytes, at)
  {
    assert [STREAM][1..] == [];
  }

  lemma AckedTurn(t: Tables)
    requires OneAcked(t, 0)
    ensures CompactStream(t, STREAM, Pass(t.streams, 0, 0, []), MAX_EVENT_COMPACTION_ROWS,
                          MAX_EVENT_COMPACTION_BYTES, 0).streams
         == map[STREAM := Stream(1, 1, map[])]
  {
    var p, h := Pass(t.streams, 0, 0, []), map[STREAM := [BODY]];
    assert ("phone", STREAM) in t.acks;
    assert AckRows(t, STREAM, 0) == {1};
    CompactStreamExact(t, STREAM, p, h, MAX_EVENT_COMPACTION_ROWS, MAX_EVENT_COMPACTION_BYTES, 0);
    var first := Numbered([BODY], 0, 1);
    assert first == [FIRST] && first[..0] == [] && TotalBytes(first) == 2;
    var s := CompactStream(t, STREAM, p, MAX_EVENT_COMPACTION_ROWS, MAX_EVENT_COMPACTION_BYTES, 0).streams[STREAM];
    assert s.floor == 1 && s.events == map[];
  }

  lemma AckedRowGoes(t: Tables)
    requires OneAcked(t, 0)
    ensures OneAcked(Apply(t, COMPACTION), 1)
  {
    AckedTurn(t);
    OneStreamPass(t, Pass(t.streams, 0, 0, []), MAX_EVENT_COMPACTION_ROWS, MAX_EVENT_COMPACTION_BYTES, 0);
    assert STREAM in [STREAM];
    assert Enumerates([STREAM], t.streams);
  }

  lemma ReusedRun()
    ensures Emitted(ACKED, REUSED) == [LiveEvent(STREAM, SECOND)] && History(ACKED + REUSED, STREAM) == [BODY, BODY]
  {
    AckedJournal();
    var compacted := ACKED + [COMPACTION];
    AckedRowGoes(Run(ACKED));
    assert compacted[..|ACKED|] == ACKED && (ACKED + REUSED)[..|compacted|] == compacted;
    assert REUSED[..1] == [COMPACTION] && [COMPACTION][..0] == [] && ACKED + [] == ACKED;
    assert Emitted(ACKED, [COMPACTION]) == [];
    assert !EventIdTaken(Run(compacted).streams, BODY.eventId);
    assert History(compacted, STREAM) == [BODY];
  }

  lemma OneEventFrame()
    ensures EventFrames(STREAM, Full, [FIRST]) == [EventFrame(LiveEvent(STREAM, FIRST))]
  {
    var events := [FIRST];
    assert events[..|events| - 1] == [] && events[|events| - 1] == FIRST;
    assert EventFrames(STREAM, Full, []) == [];
  }

  lemma OnceFrames(t: Tables, visible: string -> bool)
    requires OneAcked(t, 0)
    ensures Accepted(t, ONCE[0], visible) && EventFrame(LiveEvent(STREAM, FIRST)) in SubscribeOf(t, ONCE, visible).messages
  {
    FromTheStart(t);
    StreamIsNoSession();
    OneEventFrame();
    assert ONCE[..0] == [];
    assert EventFrame(LiveEvent(STREAM, FIRST)) in Answer(ONCE[0], SyncOf(t, STREAM, Some("0")).value);
  }

  lemma OnceIsSynced(visible: string -> bool)
    ensures Details(ONCE) == map[STREAM := Full] && Accepted(Run(ACKED), ONCE[0], visible)
    ensures StartOf(SyncOf(Run(ACKED), STREAM, Some("0")).value, Some("0")) == 0
    ensures BODY.eventId in SyncedIds(ACKED, ONCE, visible)
  {
    AckedJournal();
    FromTheStart(Run(ACKED));
    OnceFrames(Run(ACKED), visible);
    assert ONCE[..0] == [];
    assert EventFrame(LiveEvent(STREAM, FIRST)) in Awaited(SubscribeOf(Run(ACKED), ONCE, visible));
  }

  ghost function ReusedFlushed(host: Host, visible: string -> bool): Socket {
    FlushedEmpty(host, Waiting(host, visible, ACKED, ONCE, REUSED, FRESH_SOCKET))
  }

  // A socket that awaits a result with an event's id in it and hears of that id again flushes nothing more.
  lemma RepeatIsDropped(host: Host, waiting: Socket)
    requires waiting.pending == [LiveEvent(STREAM, SECOND)] && BODY.eventId in SentIds(waiting.awaited)
    ensures Flushed(host, waiting, FlushedEmpty(host, waiting))
  {
    assert [LiveEvent(STREAM, SECOND)][..0] == [];
    assert Unsent(waiting.pending, SentIds(waiting.awaited)) == [];
    assert FlushedAs(host, waiting, FlushedEmpty(host, waiting), []);
  }

  lemma ReusedIsSubscribed(host: Host, visible: string -> bool)
    ensures var flushed := ReusedFlushed(host, visible);
            Subscribed(host, visible, ACKED, ONCE, REUSED, [], FRESH_SOCKET, flushed, flushed)
  {
    ReusedRun();
    OnceIsSynced(visible);
    var begun := Begin(FRESH_SOCKET, ONCE, SubscribeOf(Run(ACKED), ONCE, visible));
    OneHeard(host, begun, LiveEvent(STREAM, SECOND));
    RepeatIsDropped(host, Waiting(host, visible, ACKED, ONCE, REUSED, FRESH_SOCKET));
    assert Emitted(ACKED + REUSED, []) == [];
  }

  lemma OneHeard(host: Host, s: Socket, live: LiveEvent)
    requires s.syncing && s.pending == [] && live.id in s.subscriptions
    ensures Listen(host, s, [live]) == s.(pending := [live])
  {
    assert [live][..0] == [] && [] + [live] == [live];
  }

  lemma ReusedFits(host: Host)
    requires host.frameBytes(LiveEvent(STREAM, FIRST)) <= MAX_JSON_BYTES
    requires host.frameBytes(LiveEvent(STREAM, SECOND)) <= MAX_JSON_BYTES
    ensures var h' := History(ACKED + REUSED, STREAM); |h'| == 2 && AllFit(host, STREAM, Numbered(h', 0, |h'|))
  {
    ReusedRun();
  }

  lemma SecondIsRepeated(host: Host, visible: string -> bool)
    requires host.frameBytes(LiveEvent(STREAM, SECOND)) <= MAX_JSON_BYTES && STREAM in Details(ONCE)
    ensures !NothingRepeated(host, visible, ACKED, ONCE, REUSED, STREAM)
  {
    ReusedRun();
    OnceIsSynced(visible);
    assert [LiveEvent(STREAM, SECOND)][..0] == [] && [SECOND][..0] == [];
    assert Project([LiveEvent(STREAM, SECOND)], STREAM) == [] + [SECOND];
    assert Delivered(host, STREAM, Full, [SECOND]) == [] + [SECOND];
    assert SECOND in Delivered(host, STREAM, Full, [SECOND]);
  }

  lemma RepeatLosesSome(host: Host, visible: string -> bool, ops0: seq<Op>, requests: seq<Request>, ops1: seq<Op>,
                        flushed: Socket, id: string, k: nat)
    requires Subscribed(host, visible, ops0, requests, ops1, [], FRESH_SOCKET, flushed, flushed)
    requires OnlyEntry(requests, id, k) && Accepted(Run(ops0), requests[k], visible) && requests[k].detail.Full?
    requires var h' := History(ops0 + ops1, id); AllFit(host, id, Numbered(h', 0, |h'|))
    requires id in Details(requests) && !NothingRepeated(host, visible, ops0, requests, ops1, id)
    ensures |Events(flushed.sent, id)| < |History(ops0 + ops1, id)|
  {
    assert ops0 + ops1 + [] == ops0 + ops1;
    var frames := WireOfOneEntry(host, visible, ops0, requests, ops1, [], FRESH_SOCKET, flushed, flushed, id, k);
    assert FRESH_SOCKET.sent + frames == frames;
    var h' := History(ops0 + ops1, id);
    var at := StartOf(SyncOf(Run(ops0), id, requests[k].afterCursor).value, requests[k].afterCursor);
    NumberedWithin(h', at);
    FullDeliversAll(host, id, Numbered(h', at, |h'|));
  }

  // A stream whose one event is acknowledged and compacted away while a replay of it awaits its flush,
  // and that is appended to under the same event id: one of its two events is never sent.
  lemma ReusedIdWitness(host: Host, visible: string -> bool)
    requires host.frameBytes(LiveEvent(STREAM, FIRST)) <= MAX_JSON_BYTES
    requires host.frameBytes(LiveEvent(STREAM, SECOND)) <= MAX_JSON_BYTES
    ensures var flushed := ReusedFlushed(host, visible);
            && Subscribed(host, visible, ACKED, ONCE, REUSED, [], FRESH_SOCKET, flushed, flushed)
            && |Events(flushed.sent, STREAM)| < |History(ACKED + REUSED, STREAM)| == 2
  {
    var flushed := ReusedFlushed(host, visible);
    ReusedIsSubscribed(host, visible);
    OnceIsSynced(visible);
    SecondIsRepeated(host, visible);
    ReusedFits(host);
    assert OnlyEntry(ONCE, STREAM, 0);
    RepeatLosesSome(host, visible, ACKED, ONCE, REUSED, flushed, STREAM, 0);
  }
}
