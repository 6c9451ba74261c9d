// What a subscribed client receives: for each stream, one unbroken stretch of the journal, however
// appends fall between the sync and the flush.
module SubscriptionProofs {
  import opened Wrappers
  import Cursors
  import opened Journal
  import opened JournalProofs
  import opened Streams
  import opened StreamProofs
  import opened Subscription
  import opened Tracker

  // ----- Reading one stream out of a mixture -----

  function Project(events: seq<LiveEvent>, id: string): seq<StoredEvent> {
    if events == [] then []
    else
      var last := events[|events| - 1];
      var rest := Project(events[..|events| - 1], id);
      if last.id == id then rest + [last.event] else rest
  }

  // The events of stream `id` among the frames put on the socket.
  function Events(frames: seq<Frame>, id: string): seq<StoredEvent> {
    if frames == [] then []
    else
      var last := frames[|frames| - 1];
      var rest := Events(frames[..|frames| - 1], id);
      if last.EventFrame? && last.live.id == id then rest + [last.live.event] else rest
  }

  // The events that a subscription's detail shows and that fit a frame.
  function Delivered(host: Host, id: string, detail: Detail, events: seq<StoredEvent>): seq<StoredEvent> {
    if events == [] then []
    else
      var last := events[|events| - 1];
      var shown := Shows(detail, last) && host.frameBytes(LiveEvent(id, last)) <= MAX_JSON_BYTES;
      var rest := Delivered(host, id, detail, events[..|events| - 1]);
      if shown then rest + [last] else rest
  }

  lemma {:induction false} ProjectSplit(a: seq<LiveEvent>, b: seq<LiveEvent>, id: string)
    ensures Project(a + b, id) == Project(a, id) + Project(b, id)
    decreases |b|
  {
    if b == [] {
      assert a + b == a;
    } else {
      assert (a + b)[..|a + b| - 1] == a + b[..|b| - 1];
      ProjectSplit(a, b[..|b| - 1], id);
    }
  }

  lemma {:induction false} EventsSplit(a: seq<Frame>, b: seq<Frame>, id: string)
    ensures Events(a + b, id) == Events(a, id) + Events(b, id)
    decreases |b|
  {
    if b == [] {
      assert a + b == a;
    } else {
      assert (a + b)[..|a + b| - 1] == a + b[..|b| - 1];
      EventsSplit(a, b[..|b| - 1], id);
    }
  }

  lemma {:induction false} DeliveredSplit(host: Host, id: string, detail: Detail, a: seq<StoredEvent>,
        b: seq<StoredEvent>)
    ensures Delivered(host, id, detail, a + b) == Delivered(host, id, detail, a) + Delivered(host, id, detail, b)
    decreases |b|
  {
    if b == [] {
      assert a + b == a;
    } else {
      assert (a + b)[..|a + b| - 1] == a + b[..|b| - 1];
      DeliveredSplit(host, id, detail, a, b[..|b| - 1]);
    }
  }

  lemma LiveFrameDelivers(host: Host, subscriptions: map<string, Detail>, live: LiveEvent, id: string)
    requires id in subscriptions
    ensures Events(LiveFrames(host, subscriptions, live), id)
         == if live.id == id then Delivered(host, id, subscriptions[id], [live.event]) else []
  {
    OneFrame(LiveFrames(host, subscriptions, live), id);
    assert [live.event][..0] == [];
  }

  lemma {:induction false} LiveTailDelivers(host: Host, subscriptions: map<string, Detail>, events: seq<LiveEvent>,
        id: string)
    requires id in subscriptions
    ensures Events(LiveTail(host, subscriptions, events), id)
         == Delivered(host, id, subscriptions[id], Project(events, id))
  {
    if events != [] {
      var n := |events| - 1;
      LiveTailDelivers(host, subscriptions, events[..n], id);
      LiveFrameDelivers(host, subscriptions, events[n], id);
      EventsSplit(LiveTail(host, subscriptions, events[..n]), LiveFrames(host, subscriptions, events[n]), id);
      if events[n].id == id {
        DeliveredSplit(host, id, subscriptions[id], Project(events[..n], id), [events[n].event]);
      }
    }
  }

  lemma OneFrame(frames: seq<Frame>, id: string)
    requires |frames| <= 1
    ensures Events(frames, id)
         == if frames != [] && frames[0].EventFrame? && frames[0].live.id == id then [frames[0].live.event] else []
  {
    if frames != [] {
      assert frames[..|frames| - 1] == [];
    }
  }

  lemma DeliveredOne(host: Host, id: string, detail: Detail, events: seq<StoredEvent>, e: StoredEvent)
    ensures Delivered(host, id, detail, events + [e])
         == var rest := Delivered(host, id, detail, events);
            if Shows(detail, e) && host.frameBytes(LiveEvent(id, e)) <= MAX_JSON_BYTES then rest + [e] else rest
  {
    assert (events + [e])[..|events|] == events;
  }

  lemma {:induction false} OutboundDelivers(host: Host, frames: seq<Frame>, id: string)
    ensures Events(OutboundAll(host, frames), id) == Delivered(host, id, Full, Events(frames, id))
  {
    if frames != [] {
      var n := |frames| - 1;
      OutboundDelivers(host, frames[..n], id);
      assert OutboundAll(host, frames)[..n] == OutboundAll(host, frames[..n]);
      if frames[n].EventFrame? && frames[n].live.id == id {
        DeliveredOne(host, id, Full, Events(frames[..n], id), frames[n].live.event);
      }
    }
  }

  // ----- The sort keeps each stream's own order -----

  ghost predicate Increasing(events: seq<StoredEvent>) {
    forall i, j :: 0 <= i < j < |events| ==> events[i].cursor < events[j].cursor
  }

  ghost predicate NonDecreasing(events: seq<StoredEvent>) {
    forall i, j :: 0 <= i < j < |events| ==> events[i].cursor <= events[j].cursor
  }

  lemma LastsAgree(a: seq<StoredEvent>, b: seq<StoredEvent>, n: nat)
    requires Increasing(a) && NonDecreasing(b) && multiset(a) == multiset(b) && |a| == |b| == n + 1
    ensures a[n] == b[n]
  {
    assert b[n] in multiset(a) && a[n] in multiset(b);
    var i :| 0 <= i <= n && a[i] == b[n];
    var j :| 0 <= j <= n && b[j] == a[n];
    if i < n {
      assert false;
    }
  }

  lemma DropLast(a: seq<StoredEvent>, n: nat)
    requires |a| == n + 1
    ensures multiset(a[..n]) == multiset(a) - multiset{a[n]}
  {
    assert a == a[..n] + [a[n]];
  }

  lemma {:induction false} SortedUnique(a: seq<StoredEvent>, b: seq<StoredEvent>)
    requires Increasing(a) && NonDecreasing(b) && multiset(a) == multiset(b)
    ensures a == b
    decreases |a|
  {
    assert |multiset(a)| == |a| && |multiset(b)| == |b|;
    if a != [] {
      var n := |a| - 1;
      LastsAgree(a, b, n);
      DropLast(a, n);
      DropLast(b, n);
      SortedUnique(a[..n], b[..n]);
      assert a == a[..n] + [a[n]] && b == b[..n] + [b[n]];
    }
  }

  lemma {:induction false} ProjectCounts(events: seq<LiveEvent>, id: string, e: StoredEvent)
    ensures multiset(Project(events, id))[e] == multiset(events)[LiveEvent(id, e)]
  {
    if events != [] {
      var n := |events| - 1;
      ProjectCounts(events[..n], id, e);
      assert events == events[..n] + [events[n]];
    }
  }

  lemma {:induction false} ProjectInOrder(host: Host, events: seq<LiveEvent>, id: string)
    requires forall i, j :: 0 <= i < j < |events| ==> InOrder(host, events[i], events[j])
    ensures NonDecreasing(Project(events, id))
  {
    if events != [] {
      var n := |events| - 1;
      ProjectInOrder(host, events[..n], id);
      if events[n].id == id {
        forall e | e in Project(events[..n], id) ensures e.cursor <= events[n].event.cursor {
          ProjectCounts(events[..n], id, e);
          assert LiveEvent(id, e) in multiset(events[..n]);
          var i :| 0 <= i < n && events[..n][i] == LiveEvent(id, e);
          assert InOrder(host, events[i], events[n]);
        }
      }
    }
  }

  lemma SortKeepsStreams(host: Host, sorted: seq<LiveEvent>, input: seq<LiveEvent>, id: string)
    requires IsSortOf(host, sorted, input) && Increasing(Project(input, id))
    ensures Project(sorted, id) == Project(input, id)
  {
    ProjectInOrder(host, sorted, id);
    forall e ensures multiset(Project(sorted, id))[e] == multiset(Project(input, id))[e] {
      ProjectCounts(sorted, id, e);
      ProjectCounts(input, id, e);
    }
    SortedUnique(Project(input, id), Project(sorted, id));
  }

  // ----- What the store emits -----

  ghost function EmittedBy(t: Tables, op: Op): seq<LiveEvent> {
    if op.Append? && CanAppend(t, op.id, op.body)
    then [LiveEvent(op.id, StoredEvent(t.streams[op.id].current + 1, op.body))] else []
  }

  // The events the commit listener hears while `ops` run after `before`.
  ghost function Emitted(before: seq<Op>, ops: seq<Op>): seq<LiveEvent> {
    if ops == [] then []
    else
      var n := |ops| - 1;
      Emitted(before, ops[..n]) + EmittedBy(Run(before + ops[..n]), ops[n])
  }

  // One committed operation emits exactly what it adds to each stream's history.
  lemma StepIsGrowth(mid: seq<Op>, op: Op, id: string)
    ensures var m, h' := History(mid, id), History(mid + [op], id);
            && |m| <= |h'| && h'[..|m|] == m
            && Project(EmittedBy(Run(mid), op), id) == Numbered(h', |m|, |h'|)
  {
    assert (mid + [op])[..|mid|] == mid;
    var m := History(mid, id);
    var emitted := EmittedBy(Run(mid), op);
    if emitted != [] {
      assert emitted[..0] == [];
      if op.id == id {
        JournalExact(mid);
        assert Histories(mid)[id] == m;
      }
    }
  }

  // Each stream's emitted events are the stretch its history grew by.
  lemma {:induction false} EmittedIsGrowth(before: seq<Op>, ops: seq<Op>, id: string)
    ensures var h, h' := History(before, id), History(before + ops, id);
            && |h| <= |h'| && h'[..|h|] == h
            && Project(Emitted(before, ops), id) == Numbered(h', |h|, |h'|)
  {
    if ops == [] {
      assert before + ops == before;
    } else {
      var n := |ops| - 1;
      var mid := before + ops[..n];
      assert mid + [ops[n]] == before + ops;
      EmittedIsGrowth(before, ops[..n], id);
      StepIsGrowth(mid, ops[n], id);
      ProjectSplit(Emitted(before, ops[..n]), EmittedBy(Run(mid), ops[n]), id);
      JoinNumbered(History(before, id), History(mid, id), History(before + ops, id));
    }
  }

  lemma JoinNumbered(h: seq<EventBody>, m: seq<EventBody>, h': seq<EventBody>)
    requires |h| <= |m| <= |h'| && m[..|h|] == h && h'[..|m|] == m
    ensures h'[..|h|] == h
    ensures Numbered(m, |h|, |m|) + Numbered(h', |m|, |h'|) == Numbered(h', |h|, |h'|)
  {
  }

  lemma StepIdsAreNew(mid: seq<Op>, op: Op, eventId: string)
    requires EventIdTaken(Run(mid).streams, eventId) && !op.Compact?
    ensures EventIdTaken(Run(mid + [op]).streams, eventId)
    ensures forall e :: e in EmittedBy(Run(mid), op) ==> e.event.body.eventId != eventId
  {
    assert (mid + [op])[..|mid|] == mid;
    JournalExact(mid);
    TakenStaysTaken(Run(mid), op, eventId);
  }

  // Without a compaction, an event kept at the start is still kept, so no emitted event reuses its id.
  lemma {:induction false} EmittedIdsAreNew(before: seq<Op>, ops: seq<Op>, eventId: string)
    requires EventIdTaken(Run(before).streams, eventId) && forall op :: op in ops ==> !op.Compact?
    ensures EventIdTaken(Run(before + ops).streams, eventId)
    ensures forall e :: e in Emitted(before, ops) ==> e.event.body.eventId != eventId
  {
    if ops == [] {
      assert before + ops == before;
    } else {
      var n := |ops| - 1;
      EmittedIdsAreNew(before, ops[..n], eventId);
      StepIdsAreNew(before + ops[..n], ops[n], eventId);
      assert before + ops[..n] + [ops[n]] == before + ops;
    }
  }

  lemma TakenStaysTaken(t: Tables, op: Op, eventId: string)
    requires EventIdTaken(t.streams, eventId) && !op.Compact?
    requires forall id :: id in t.streams ==> t.streams[id].current + 1 !in t.streams[id].events
    ensures EventIdTaken(Apply(t, op).streams, eventId)
  {
    var id :| id in t.streams && IdIn(t.streams[id].events, eventId);
    var c :| c in t.streams[id].events && t.streams[id].events[c].eventId == eventId;
    var t' := Apply(t, op);
    assert id in t'.streams && c in t'.streams[id].events && t'.streams[id].events[c] == t.streams[id].events[c];
    assert IdIn(t'.streams[id].events, eventId);
  }

  // ----- What the sync puts on the wire -----

  predicate Accepted(t: Tables, request: Request, visible: string -> bool) {
    !Refused(request, visible) && SyncOf(t, request.id, request.afterCursor).Ok?
  }

  // What the entries for `id` replay, one after another.
  function Replayed(host: Host, t: Tables, requests: seq<Request>, visible: string -> bool,
        id: string): seq<StoredEvent> {
    if requests == [] then []
    else
      var n := |requests| - 1;
      var rest, last := Replayed(host, t, requests[..n], visible, id), requests[n];
      if last.id == id && Accepted(t, last, visible)
      then rest + Delivered(host, id, last.detail, SyncOf(t, id, last.afterCursor).value.events)
      else rest
  }

  lemma {:induction false} EventFramesDeliver(host: Host, target: string, detail: Detail, events: seq<StoredEvent>,
        id: string)
    ensures Delivered(host, id, Full, Events(EventFrames(target, detail, events), id))
         == if target == id then Delivered(host, id, detail, events) else []
  {
    if events != [] {
      var n := |events| - 1;
      EventFramesDeliver(host, target, detail, events[..n], id);
      var frames, last := EventFrames(target, detail, events[..n]), events[n];
      if Shows(detail, last) {
        var all := frames + [EventFrame(LiveEvent(target, last))];
        assert all[..|all| - 1] == frames;
        if target == id {
          DeliveredOne(host, id, Full, Events(frames, id), last);
        }
      }
    }
  }

  lemma AnswerDelivers(host: Host, request: Request, sync: StreamSync, id: string)
    ensures Delivered(host, id, Full, Events(Answer(request, sync), id))
         == if request.id == id then Delivered(host, id, request.detail, sync.events) else []
  {
    var head := (if sync.mode.Current? then [StateFrame(request.id)] else [])
              + (if sync.mode.SnapshotRequired? then [SnapshotFrames(request.id, sync.baseline.GetOr(0))] else []);
    var body := EventFrames(request.id, request.detail, sync.events);
    var tail := [CompleteFrame(request.id, sync.currentCursor, sync.mode)];
    EventsSplit(head, body, id);
    EventsSplit(head + body, tail, id);
    OneFrame(head, id);
    OneFrame(tail, id);
    assert Answer(request, sync) == head + body + tail;
    assert Events(Answer(request, sync), id) == [] + Events(body, id) + [] == Events(body, id);
    EventFramesDeliver(host, request.id, request.detail, sync.events, id);
  }

  // The frames that one entry adds to the result.
  function Addition(t: Tables, request: Request, visible: string -> bool): seq<Frame> {
    if Accepted(t, request, visible) then Answer(request, SyncOf(t, request.id, request.afterCursor).value)
    else if Refused(request, visible) || SyncOf(t, request.id, request.afterCursor) != Err(CursorInvalid)
    then [ErrorFrame("stream_not_found")]
    else [ErrorFrame("cursor_invalid")]
  }

  lemma AdditionDelivers(host: Host, t: Tables, request: Request, visible: string -> bool, id: string)
    ensures Delivered(host, id, Full, Events(Addition(t, request, visible), id))
         == if request.id == id && Accepted(t, request, visible)
            then Delivered(host, id, request.detail, SyncOf(t, id, request.afterCursor).value.events) else []
  {
    if Accepted(t, request, visible) {
      AnswerDelivers(host, request, SyncOf(t, request.id, request.afterCursor).value, id);
    } else {
      OneFrame(Addition(t, request, visible), id);
    }
  }

  lemma SubscribeAdds(t: Tables, requests: seq<Request>, visible: string -> bool)
    requires requests != []
    ensures SubscribeOf(t, requests, visible).messages
         == SubscribeOf(t, requests[..|requests| - 1], visible).messages + Addition(t, requests[|requests| - 1], visible)
  {
  }

  lemma {:induction false} SubscribeDelivers(host: Host, t: Tables, requests: seq<Request>, visible: string -> bool,
        id: string)
    ensures Delivered(host, id, Full, Events(SubscribeOf(t, requests, visible).messages, id))
         == Replayed(host, t, requests, visible, id)
  {
    if requests != [] {
      var n := |requests| - 1;
      SubscribeDelivers(host, t, requests[..n], visible, id);
      var before, more := SubscribeOf(t, requests[..n], visible).messages, Addition(t, requests[n], visible);
      SubscribeAdds(t, requests, visible);
      EventsSplit(before, more, id);
      DeliveredSplit(host, id, Full, Events(before, id), Events(more, id));
      AdditionDelivers(host, t, requests[n], visible, id);
    }
  }

  // ----- Listening -----

  function Listen(host: Host, s: Socket, events: seq<LiveEvent>): Socket {
    if events == [] then s else OnEvent(host, Listen(host, s, events[..|events| - 1]), events[|events| - 1])
  }

  lemma {:induction false} ListenWhileSyncing(host: Host, s: Socket, events: seq<LiveEvent>, id: string)
    requires s.syncing && id in s.subscriptions
    ensures var s' := Listen(host, s, events);
            && s' == s.(pending := s'.pending)
            && Project(s'.pending, id) == Project(s.pending, id) + Project(events, id)
            && forall e :: e in s'.pending ==> e in s.pending || e in events
  {
    if events != [] {
      var n := |events| - 1;
      ListenWhileSyncing(host, s, events[..n], id);
      var pending := Listen(host, s, events[..n]).pending;
      assert (pending + [events[n]])[..|pending|] == pending;
    }
  }

  lemma {:induction false} ListenWhileLive(host: Host, s: Socket, events: seq<LiveEvent>)
    requires !s.syncing && s.synchronized
    ensures Listen(host, s, events) == s.(sent := s.sent + LiveTail(host, s.subscriptions, events))
  {
    if events != [] {
      ListenWhileLive(host, s, events[..|events| - 1]);
    }
  }

  // The events whose ids are not among those already sent.
  function Fresh(events: seq<StoredEvent>, ids: set<string>): seq<StoredEvent> {
    if events == [] then []
    else
      var last := events[|events| - 1];
      var rest := Fresh(events[..|events| - 1], ids);
      if last.body.eventId in ids then rest else rest + [last]
  }

  lemma {:induction false} UnsentIsFresh(events: seq<LiveEvent>, ids: set<string>, id: string)
    ensures Project(Unsent(events, ids), id) == Fresh(Project(events, id), ids)
  {
    if events != [] {
      var n := |events| - 1;
      UnsentIsFresh(events[..n], ids, id);
      var rest, before := Unsent(events[..n], ids), Project(events[..n], id);
      assert (rest + [events[n]])[..|rest|] == rest;
      assert (before + [events[n].event])[..|before|] == before;
    }
  }

  lemma {:induction false} FreshIsIncreasing(events: seq<StoredEvent>, ids: set<string>)
    requires Increasing(events)
    ensures Increasing(Fresh(events, ids)) && forall e :: e in Fresh(events, ids) ==> e in events
  {
    if events != [] {
      var n := |events| - 1;
      var rest := Fresh(events[..n], ids);
      FreshIsIncreasing(events[..n], ids);
      forall i | 0 <= i < |rest| ensures rest[i].cursor < events[n].cursor {
        assert rest[i] in events[..n];
      }
    }
  }

  lemma {:induction false} FreshDelivered(host: Host, id: string, detail: Detail, events: seq<StoredEvent>,
        ids: set<string>)
    ensures Delivered(host, id, detail, Fresh(events, ids)) == Fresh(Delivered(host, id, detail, events), ids)
  {
    if events != [] {
      var n := |events| - 1;
      FreshDelivered(host, id, detail, events[..n], ids);
      var rest, before := Fresh(events[..n], ids), Delivered(host, id, detail, events[..n]);
      assert (rest + [events[n]])[..|rest|] == rest;
      assert (before + [events[n]])[..|before|] == before;
    }
  }

  // Nothing is held back exactly when no id was sent before; otherwise something is lost.
  lemma {:induction false} FreshExactly(events: seq<StoredEvent>, ids: set<string>)
    ensures |Fresh(events, ids)| <= |events|
    ensures Fresh(events, ids) == events <==> forall e :: e in events ==> e.body.eventId !in ids
    ensures Fresh(events, ids) != events ==> |Fresh(events, ids)| < |events|
  {
    if events != [] {
      var n := |events| - 1;
      FreshExactly(events[..n], ids);
      assert events == events[..n] + [events[n]];
    }
  }

  // Event ids that the sync put in its frames belong to rows the journal keeps.
  lemma {:induction false} SentIdsAreKept(t: Tables, requests: seq<Request>, visible: string -> bool)
    ensures forall f :: f in SubscribeOf(t, requests, visible).messages && f.EventFrame?
              ==> EventIdTaken(t.streams, f.live.event.body.eventId)
  {
    if requests != [] {
      var n := |requests| - 1;
      SentIdsAreKept(t, requests[..n], visible);
      var last := requests[n];
      if Accepted(t, last, visible) {
        var sync := SyncOf(t, last.id, last.afterCursor).value;
        forall e | e in sync.events ensures EventIdTaken(t.streams, e.body.eventId) {
          SyncedRowIsKept(t, last.id, last.afterCursor, e);
        }
        EventFramesCarry(last.id, last.detail, sync.events);
      }
    }
  }

  lemma SyncedRowIsKept(t: Tables, id: string, afterCursor: Option<string>, e: StoredEvent)
    requires SyncOf(t, id, afterCursor).Ok? && e in SyncOf(t, id, afterCursor).value.events
    ensures EventIdTaken(t.streams, e.body.eventId)
  {
    var s := t.streams[id];
    var after := if afterCursor.Some? then Cursors.Parse(afterCursor.value) else 0;
    SelectExact(s.events, after, s.current);
    SelectExact(s.events, s.current, s.current);
    assert e.cursor in s.events && s.events[e.cursor] == e.body;
    assert IdIn(s.events, e.body.eventId);
  }

  lemma {:induction false} EventFramesCarry(id: string, detail: Detail, events: seq<StoredEvent>)
    ensures forall f :: f in EventFrames(id, detail, events) ==> f.EventFrame? && f.live.id == id && f.live.event in events
  {
    if events != [] {
      EventFramesCarry(id, detail, events[..|events| - 1]);
    }
  }

  // ----- The splice -----

  function Awaited(result: SubscribeResult): seq<Frame> {
    [AcceptedFrame(result.accepted)] + result.messages
  }

  // The socket after it subscribed at Run(ops0) and buffered what ops1 emitted.
  ghost function Waiting(host: Host, visible: string -> bool, ops0: seq<Op>, requests: seq<Request>,
                         ops1: seq<Op>, start: Socket): Socket
  {
    Listen(host, Begin(start, requests, SubscribeOf(Run(ops0), requests, visible)), Emitted(ops0, ops1))
  }

  // A socket that subscribed when the journal was Run(ops0), heard ops1 while its result was
  // awaited, flushed, and then heard ops2.
  ghost predicate Subscribed(host: Host, visible: string -> bool, ops0: seq<Op>, requests: seq<Request>,
                             ops1: seq<Op>, ops2: seq<Op>, start: Socket, flushed: Socket, end: Socket)
  {
    && Flushed(host, Waiting(host, visible, ops0, requests, ops1, start), flushed)
    && end == Listen(host, flushed, Emitted(ops0 + ops1, ops2))
  }

  // The ids of the events in the result that the socket awaits.
  ghost function SyncedIds(ops0: seq<Op>, requests: seq<Request>, visible: string -> bool): set<string> {
    SentIds(Awaited(SubscribeOf(Run(ops0), requests, visible)))
  }

  // No event of `id` that was emitted before the flush, and is to be delivered, has the id of an event
  // that the sync had already put in its frames.
  ghost predicate NothingRepeated(host: Host, visible: string -> bool, ops0: seq<Op>, requests: seq<Request>,
                                  ops1: seq<Op>, id: string)
    requires id in Details(requests)
  {
    forall e :: e in Delivered(host, id, Details(requests)[id], Project(Emitted(ops0, ops1), id)) ==>
                  e.body.eventId !in SyncedIds(ops0, requests, visible)
  }

  lemma NumberedIncreasing(h: seq<EventBody>, after: nat, through: nat)
    requires after <= through <= |h|
    ensures Increasing(Numbered(h, after, through))
  {
  }

  lemma AwaitedDelivers(host: Host, t: Tables, requests: seq<Request>, visible: string -> bool, id: string)
    ensures Events(OutboundAll(host, Awaited(SubscribeOf(t, requests, visible))), id)
         == Replayed(host, t, requests, visible, id)
  {
    var result := SubscribeOf(t, requests, visible);
    var head := [AcceptedFrame(result.accepted)];
    OutboundDelivers(host, Awaited(result), id);
    EventsSplit(head, result.messages, id);
    OneFrame(head, id);
    assert Events(Awaited(result), id) == [] + Events(result.messages, id) == Events(result.messages, id);
    SubscribeDelivers(host, t, requests, visible, id);
  }

  // The buffered events of one stream leave the sort as they entered the buffer.
  lemma BufferDelivers(host: Host, ops0: seq<Op>, ops1: seq<Op>, subscriptions: map<string, Detail>,
                       pending: seq<LiveEvent>, ids: set<string>, sorted: seq<LiveEvent>, id: string)
    requires id in subscriptions && Project(pending, id) == Project(Emitted(ops0, ops1), id)
    requires IsSortOf(host, sorted, Unsent(pending, ids))
    ensures Events(LiveTail(host, subscriptions, sorted), id)
         == Fresh(Delivered(host, id, subscriptions[id], Project(Emitted(ops0, ops1), id)), ids)
  {
    EmittedIsGrowth(ops0, ops1, id);
    NumberedIncreasing(History(ops0 + ops1, id), |History(ops0, id)|, |History(ops0 + ops1, id)|);
    UnsentIsFresh(pending, ids, id);
    FreshIsIncreasing(Project(pending, id), ids);
    SortKeepsStreams(host, sorted, Unsent(pending, ids), id);
    FreshDelivered(host, id, subscriptions[id], Project(pending, id), ids);
    LiveTailDelivers(host, subscriptions, sorted, id);
  }

  // A socket whose buffer holds what was emitted while its result was awaited.
  ghost predicate Buffering(waiting: Socket, start: Socket, result: SubscribeResult, details: map<string, Detail>,
                            emitted: seq<LiveEvent>, id: string)
  {
    && waiting.subscriptions == details && waiting.sent == start.sent && waiting.awaited == Awaited(result)
    && Project(waiting.pending, id) == Project(emitted, id)
    && (forall e :: e in waiting.pending ==> e in emitted)
  }

  lemma WaitingBuffers(host: Host, visible: string -> bool, ops0: seq<Op>, requests: seq<Request>, ops1: seq<Op>,
                       start: Socket, id: string)
    requires id in Details(requests)
    ensures Buffering(Waiting(host, visible, ops0, requests, ops1, start), start, SubscribeOf(Run(ops0), requests, visible),
                      Details(requests), Emitted(ops0, ops1), id)
  {
    ListenWhileSyncing(host, Begin(start, requests, SubscribeOf(Run(ops0), requests, visible)), Emitted(ops0, ops1), id);
    assert [] + Project(Emitted(ops0, ops1), id) == Project(Emitted(ops0, ops1), id);
  }

  // The flush puts what was awaited on the wire, and after it the buffer in its sorted order.
  lemma FlushFrames(host: Host, waiting: Socket, flushed: Socket) returns (sorted: seq<LiveEvent>)
    requires Flushed(host, waiting, flushed)
    ensures IsSortOf(host, sorted, Unsent(waiting.pending, SentIds(waiting.awaited)))
    ensures flushed.subscriptions == waiting.subscriptions && !flushed.syncing && flushed.synchronized
    ensures flushed.sent == waiting.sent + (OutboundAll(host, waiting.awaited) + LiveTail(host, waiting.subscriptions, sorted))
  {
    sorted :| FlushedAs(host, waiting, flushed, sorted);
    assert flushed.sent == waiting.sent + OutboundAll(host, waiting.awaited) + LiveTail(host, waiting.subscriptions, sorted);
  }

  lemma FlushOfBuffer(host: Host, visible: string -> bool, ops0: seq<Op>, requests: seq<Request>, ops1: seq<Op>,
                      start: Socket, waiting: Socket, flushed: Socket, id: string) returns (frames: seq<Frame>)
    requires id in Details(requests)
    requires Buffering(waiting, start, SubscribeOf(Run(ops0), requests, visible), Details(requests), Emitted(ops0, ops1), id)
    requires Flushed(host, waiting, flushed)
    ensures flushed.subscriptions == Details(requests) && !flushed.syncing && flushed.synchronized
    ensures flushed.sent == start.sent + frames
    ensures Events(frames, id)
         == Replayed(host, Run(ops0), requests, visible, id)
          + Fresh(Delivered(host, id, Details(requests)[id], Project(Emitted(ops0, ops1), id)),
                  SyncedIds(ops0, requests, visible))
  {
    var sorted := FlushFrames(host, waiting, flushed);
    var replay, tail := OutboundAll(host, waiting.awaited), LiveTail(host, waiting.subscriptions, sorted);
    BufferDelivers(host, ops0, ops1, waiting.subscriptions, waiting.pending, SentIds(waiting.awaited), sorted, id);
    AwaitedDelivers(host, Run(ops0), requests, visible, id);
    frames := replay + tail;
    EventsSplit(replay, tail, id);
  }

  // The flush: what was buffered follows what was replayed, each stream in its own order.
  lemma FlushDelivers(host: Host, visible: string -> bool, ops0: seq<Op>, requests: seq<Request>, ops1: seq<Op>,
                      start: Socket, flushed: Socket, id: string) returns (frames: seq<Frame>)
    requires id in Details(requests)
    requires Flushed(host, Waiting(host, visible, ops0, requests, ops1, start), flushed)
    ensures flushed.subscriptions == Details(requests) && !flushed.syncing && flushed.synchronized
    ensures flushed.sent == start.sent + frames
    ensures Events(frames, id)
         == Replayed(host, Run(ops0), requests, visible, id)
          + Fresh(Delivered(host, id, Details(requests)[id], Project(Emitted(ops0, ops1), id)),
                  SyncedIds(ops0, requests, visible))
  {
    WaitingBuffers(host, visible, ops0, requests, ops1, start, id);
    frames := FlushOfBuffer(host, visible, ops0, requests, ops1, start,
                            Waiting(host, visible, ops0, requests, ops1, start), flushed, id);
  }

  // Everything a subscribed socket is sent of one stream: its replays, then what was appended between
  // the sync and the flush, less what repeats an id already sent, then what was appended after it.
  lemma WireIs(host: Host, visible: string -> bool, ops0: seq<Op>, requests: seq<Request>, ops1: seq<Op>,
               ops2: seq<Op>, start: Socket, flushed: Socket, end: Socket, id: string)
    returns (frames: seq<Frame>)
    requires Subscribed(host, visible, ops0, requests, ops1, ops2, start, flushed, end) && id in Details(requests)
    ensures end.sent == start.sent + frames
    ensures var detail := Details(requests)[id];
            Events(frames, id)
            == Replayed(host, Run(ops0), requests, visible, id)
             + (Fresh(Delivered(host, id, detail, Project(Emitted(ops0, ops1), id)), SyncedIds(ops0, requests, visible))
                + Delivered(host, id, detail, Project(Emitted(ops0 + ops1, ops2), id)))
  {
    var detail, later := Details(requests)[id], Emitted(ops0 + ops1, ops2);
    var first := FlushDelivers(host, visible, ops0, requests, ops1, start, flushed, id);
    frames := TailDelivers(host, start, flushed, first, later, id);
    Regroup(Replayed(host, Run(ops0), requests, visible, id),
            Fresh(Delivered(host, id, detail, Project(Emitted(ops0, ops1), id)), SyncedIds(ops0, requests, visible)),
            Delivered(host, id, detail, Project(later, id)));
  }

  // That is its replays and then every event appended since the sync, in order, however the appends and
  // compactions fell before and after the flush, if and only if none of them repeats an id already sent;
  // otherwise something is missing.
  lemma {:induction false} WireExact(host: Host, visible: string -> bool, ops0: seq<Op>, requests: seq<Request>,
        ops1: seq<Op>,
                  ops2: seq<Op>, start: Socket, flushed: Socket, end: Socket, id: string)
    returns (frames: seq<Frame>)
    requires Subscribed(host, visible, ops0, requests, ops1, ops2, start, flushed, end) && id in Details(requests)
    ensures end.sent == start.sent + frames
    ensures var h, h' := History(ops0, id), History(ops0 + ops1 + ops2, id);
            && |h| <= |h'| && h'[..|h|] == h
            && var all := Replayed(host, Run(ops0), requests, visible, id)
                        + Delivered(host, id, Details(requests)[id], Numbered(h', |h|, |h'|));
            && (Events(frames, id) == all <==> NothingRepeated(host, visible, ops0, requests, ops1, id))
            && (Events(frames, id) != all ==> |Events(frames, id)| < |all|)
  {
    var detail := Details(requests)[id];
    frames := WireIs(host, visible, ops0, requests, ops1, ops2, start, flushed, end, id);
    GrowthJoins(host, ops0, ops1, ops2, detail, id);
    var early := Delivered(host, id, detail, Project(Emitted(ops0, ops1), id));
    FreshExactly(early, SyncedIds(ops0, requests, visible));
    Between(Replayed(host, Run(ops0), requests, visible, id), Fresh(early, SyncedIds(ops0, requests, visible)), early,
            Delivered(host, id, detail, Project(Emitted(ops0 + ops1, ops2), id)));
  }

  lemma Between(a: seq<StoredEvent>, b: seq<StoredEvent>, b': seq<StoredEvent>, c: seq<StoredEvent>)
    requires b == b' || |b| < |b'|
    ensures a + (b + c) == a + (b' + c) <==> b == b'
    ensures b != b' ==> |a + (b + c)| < |a + (b' + c)|
  {
  }

  // Without a compaction between the sync and the flush nothing is repeated: what was synced is still
  // kept, and a kept id is not taken twice.
  lemma UncompactedIsUnrepeated(host: Host, visible: string -> bool, ops0: seq<Op>, requests: seq<Request>,
        ops1: seq<Op>, id: string)
    requires id in Details(requests) && forall op :: op in ops1 ==> !op.Compact?
    ensures NothingRepeated(host, visible, ops0, requests, ops1, id)
  {
    SentIdsAreKept(Run(ops0), requests, visible);
    var detail, emitted := Details(requests)[id], Emitted(ops0, ops1);
    forall e | e in Delivered(host, id, detail, Project(emitted, id))
      ensures e.body.eventId !in SyncedIds(ops0, requests, visible)
    {
      DeliveredWasEmitted(host, id, detail, emitted, e);
      if e.body.eventId in SyncedIds(ops0, requests, visible) {
        EmittedIdsAreNew(ops0, ops1, e.body.eventId);
      }
    }
  }

  lemma {:induction false} DeliveredWasEmitted(host: Host, id: string, detail: Detail, emitted: seq<LiveEvent>,
        e: StoredEvent)
    requires e in Delivered(host, id, detail, Project(emitted, id))
    ensures LiveEvent(id, e) in emitted
  {
    if emitted != [] {
      var n := |emitted| - 1;
      var before := Project(emitted[..n], id);
      DeliveredOne(host, id, detail, before, emitted[n].event);
      if e in Delivered(host, id, detail, before) {
        DeliveredWasEmitted(host, id, detail, emitted[..n], e);
      }
    }
  }

  // Nor is anything repeated, compactions or not, when no append uses an id that was used before the sync.
  lemma NewIdsAreUnrepeated(host: Host, visible: string -> bool, ops0: seq<Op>, requests: seq<Request>,
        ops1: seq<Op>, id: string)
    requires id in Details(requests)
    requires forall a, b :: a in ops0 && b in ops1 && a.Append? && b.Append? ==> a.body.eventId != b.body.eventId
    ensures NothingRepeated(host, visible, ops0, requests, ops1, id)
  {
    SentIdsAreKept(Run(ops0), requests, visible);
    var detail, emitted := Details(requests)[id], Emitted(ops0, ops1);
    forall e | e in Delivered(host, id, detail, Project(emitted, id))
      ensures e.body.eventId !in SyncedIds(ops0, requests, visible)
    {
      DeliveredWasEmitted(host, id, detail, emitted, e);
      var b := EmittedWasAppended(ops0, ops1, LiveEvent(id, e));
      if e.body.eventId in SyncedIds(ops0, requests, visible) {
        var a := KeptWasAppended(ops0, e.body.eventId);
      }
    }
  }

  lemma {:induction false} EmittedWasAppended(before: seq<Op>, ops: seq<Op>, e: LiveEvent) returns (op: Op)
    requires e in Emitted(before, ops)
    ensures op in ops && op.Append? && op.body == e.event.body
  {
    var n := |ops| - 1;
    if e in Emitted(before, ops[..n]) {
      op := EmittedWasAppended(before, ops[..n], e);
    } else {
      op := ops[n];
    }
  }

  lemma {:induction false} KeptWasAppended(ops: seq<Op>, eventId: string) returns (op: Op)
    requires EventIdTaken(Run(ops).streams, eventId)
    ensures op in ops && op.Append? && op.body.eventId == eventId
  {
    JournalExact(ops);
    var id :| id in Run(ops).streams && IdIn(Run(ops).streams[id].events, eventId);
    var c :| c in Run(ops).streams[id].events && Run(ops).streams[id].events[c].eventId == eventId;
    assert Histories(ops)[id] == History(ops, id);
    op := HistoryWasAppended(ops, id, c - 1);
  }

  lemma {:induction false} HistoryWasAppended(ops: seq<Op>, id: string, i: nat) returns (op: Op)
    requires i < |History(ops, id)|
    ensures op in ops && op.Append? && op.body == History(ops, id)[i]
  {
    var n := |ops| - 1;
    if i < |History(ops[..n], id)| {
      op := HistoryWasAppended(ops[..n], id, i);
    } else {
      op := ops[n];
    }
  }

  lemma Regroup(a: seq<StoredEvent>, b: seq<StoredEvent>, c: seq<StoredEvent>)
    ensures (a + b) + c == a + (b + c)
  {
  }

  lemma TailDelivers(host: Host, start: Socket, flushed: Socket, first: seq<Frame>, later: seq<LiveEvent>, id: string)
    returns (frames: seq<Frame>)
    requires !flushed.syncing && flushed.synchronized && id in flushed.subscriptions
    requires flushed.sent == start.sent + first
    ensures Listen(host, flushed, later).sent == start.sent + frames
    ensures Events(frames, id)
         == Events(first, id) + Delivered(host, id, flushed.subscriptions[id], Project(later, id))
  {
    var tail := LiveTail(host, flushed.subscriptions, later);
    frames := first + tail;
    ListenWhileLive(host, flushed, later);
    LiveTailDelivers(host, flushed.subscriptions, later, id);
    EventsSplit(first, tail, id);
    assert start.sent + first + tail == start.sent + frames;
  }

  lemma GrowthJoins(host: Host, ops0: seq<Op>, ops1: seq<Op>, ops2: seq<Op>, detail: Detail, id: string)
    ensures var h, h' := History(ops0, id), History(ops0 + ops1 + ops2, id);
            && |h| <= |h'| && h'[..|h|] == h
            && Delivered(host, id, detail, Project(Emitted(ops0, ops1), id))
             + Delivered(host, id, detail, Project(Emitted(ops0 + ops1, ops2), id))
            == Delivered(host, id, detail, Numbered(h', |h|, |h'|))
  {
    var h, m, h' := History(ops0, id), History(ops0 + ops1, id), History(ops0 + ops1 + ops2, id);
    EmittedIsGrowth(ops0, ops1, id);
    EmittedIsGrowth(ops0 + ops1, ops2, id);
    JoinNumbered(h, m, h');
    DeliveredSplit(host, id, detail, Numbered(m, |h|, |m|), Numbered(h', |m|, |h'|));
  }

  // ----- Contiguity -----

  ghost predicate Contiguous(events: seq<StoredEvent>) {
    forall i, j :: 0 <= i && j == i + 1 && j < |events| ==> events[j].cursor == events[i].cursor + 1
  }

  // Where a client stands before the first event it is sent.
  function StartOf(sync: StreamSync, afterCursor: Option<string>): nat {
    if sync.mode.SnapshotRequired? then sync.baseline.GetOr(0)
    else if afterCursor.Some? && Cursors.Canonical(afterCursor.value) then Cursors.Parse(afterCursor.value) else 0
  }

  lemma SyncEvents(ops: seq<Op>, id: string, afterCursor: Option<string>)
    requires SyncOf(Run(ops), id, afterCursor).Ok?
    ensures var h, sync := History(ops, id), SyncOf(Run(ops), id, afterCursor).value;
            && StartOf(sync, afterCursor) <= |h| == sync.currentCursor
            && sync.events == Numbered(h, StartOf(sync, afterCursor), |h|)
            && (sync.events != [] <==> sync.mode.Replay?)
  {
    JournalExact(ops);
    var s := Run(ops).streams[id];
    assert Histories(ops)[id] == History(ops, id);
    var sync := SyncOf(Run(ops), id, afterCursor).value;
    SelectContiguous(s, History(ops, id), StartOf(sync, afterCursor), s.current);
  }

  ghost predicate AllFit(host: Host, id: string, events: seq<StoredEvent>) {
    forall e :: e in events ==> host.frameBytes(LiveEvent(id, e)) <= MAX_JSON_BYTES
  }

  lemma {:induction false} FullDeliversAll(host: Host, id: string, events: seq<StoredEvent>)
    requires AllFit(host, id, events)
    ensures Delivered(host, id, Full, events) == events
  {
    if events != [] {
      FullDeliversAll(host, id, events[..|events| - 1]);
    }
  }

  // `requests` asks for `id` in exactly one entry, at index `k`.
  ghost predicate OnlyEntry(requests: seq<Request>, id: string, k: nat) {
    k < |requests| && forall i :: 0 <= i < |requests| ==> (requests[i].id == id <==> i == k)
  }

  lemma {:induction false} NoEntryReplaysNothing(host: Host, t: Tables, requests: seq<Request>,
        visible: string -> bool, id: string)
    requires forall i :: 0 <= i < |requests| ==> requests[i].id != id
    ensures Replayed(host, t, requests, visible, id) == []
  {
    if requests != [] {
      NoEntryReplaysNothing(host, t, requests[..|requests| - 1], visible, id);
    }
  }

  lemma {:induction false} OneEntryReplays(host: Host, t: Tables, requests: seq<Request>, visible: string -> bool,
        id: string, k: nat)
    requires OnlyEntry(requests, id, k) && Accepted(t, requests[k], visible)
    ensures id in Details(requests) && Details(requests)[id] == requests[k].detail
    ensures Replayed(host, t, requests, visible, id)
         == Delivered(host, id, requests[k].detail, SyncOf(t, id, requests[k].afterCursor).value.events)
  {
    var n := |requests| - 1;
    if k == n {
      NoEntryReplaysNothing(host, t, requests[..n], visible, id);
    } else {
      OneEntryReplays(host, t, requests[..n], visible, id, k);
    }
  }

  // What is replayed to the one entry and what is appended later are one stretch of the history.
  lemma OneEntryStretch(host: Host, visible: string -> bool, ops0: seq<Op>, requests: seq<Request>, h': seq<EventBody>,
                        id: string, k: nat)
    requires OnlyEntry(requests, id, k) && Accepted(Run(ops0), requests[k], visible)
    requires var h := History(ops0, id); |h| <= |h'| && h'[..|h|] == h
    ensures id in Details(requests) && Details(requests)[id] == requests[k].detail
    ensures var at := StartOf(SyncOf(Run(ops0), id, requests[k].afterCursor).value, requests[k].afterCursor);
            && at <= |h'|
            && Replayed(host, Run(ops0), requests, visible, id)
             + Delivered(host, id, requests[k].detail, Numbered(h', |History(ops0, id)|, |h'|))
            == Delivered(host, id, requests[k].detail, Numbered(h', at, |h'|))
  {
    OneEntryReplays(host, Run(ops0), requests, visible, id, k);
    SyncEvents(ops0, id, requests[k].afterCursor);
    var at := StartOf(SyncOf(Run(ops0), id, requests[k].afterCursor).value, requests[k].afterCursor);
    var h := History(ops0, id);
    JoinFrom(h, h', at);
    DeliveredSplit(host, id, requests[k].detail, Numbered(h, at, |h|), Numbered(h', |h|, |h'|));
  }

  // A stream that is asked for once and accepted is sent its journal from where the client stands
  // to the end, less only what the detail hides and what no frame can carry, if and only if nothing
  // repeats an id already sent; otherwise less is sent.
  lemma {:induction false} WireOfOneEntry(host: Host, visible: string -> bool, ops0: seq<Op>, requests: seq<Request>,
        ops1: seq<Op>,
                       ops2: seq<Op>, start: Socket, flushed: Socket, end: Socket, id: string, k: nat)
    returns (frames: seq<Frame>)
    requires Subscribed(host, visible, ops0, requests, ops1, ops2, start, flushed, end)
    requires OnlyEntry(requests, id, k) && Accepted(Run(ops0), requests[k], visible)
    ensures end.sent == start.sent + frames && id in Details(requests)
    ensures var at := StartOf(SyncOf(Run(ops0), id, requests[k].afterCursor).value, requests[k].afterCursor);
            var h' := History(ops0 + ops1 + ops2, id);
            && at <= |h'|
            && var all := Delivered(host, id, requests[k].detail, Numbered(h', at, |h'|));
            && (Events(frames, id) == all <==> NothingRepeated(host, visible, ops0, requests, ops1, id))
            && (Events(frames, id) != all ==> |Events(frames, id)| < |all|)
  {
    OneEntryReplays(host, Run(ops0), requests, visible, id, k);
    frames := WireExact(host, visible, ops0, requests, ops1, ops2, start, flushed, end, id);
    OneEntryStretch(host, visible, ops0, requests, History(ops0 + ops1 + ops2, id), id, k);
  }

  lemma JoinFrom(h: seq<EventBody>, h': seq<EventBody>, at: nat)
    requires at <= |h| <= |h'| && h'[..|h|] == h
    ensures Numbered(h, at, |h|) + Numbered(h', |h|, |h'|) == Numbered(h', at, |h'|)
  {
  }

  lemma NumberedWithin(h: seq<EventBody>, at: nat)
    requires at <= |h|
    ensures forall e :: e in Numbered(h, at, |h|) ==> e in Numbered(h, 0, |h|)
  {
    forall e | e in Numbered(h, at, |h|) ensures e in Numbered(h, 0, |h|) {
      assert Numbered(h, 0, |h|)[e.cursor - 1] == e;
    }
  }

  lemma {:induction false} FeedIsBounded(p: Position, events: seq<StoredEvent>)
    ensures Feed(p, events).cursor <= p.cursor + |events|
  {
    if events != [] {
      FeedIsBounded(p, events[..|events| - 1]);
    }
  }

  // A tracker that is fed the whole rest of the journal applies it, and one that is fed less cannot
  // end where the journal does.
  lemma RestOrLess(p: Position, h: seq<EventBody>, base: nat, events: seq<StoredEvent>)
    requires Tracks(p, h, base)
    ensures events == Numbered(h, p.cursor, |h|) ==> AppliedOf(p, events) == events && Feed(p, events).cursor == |h|
    ensures |events| < |h| - p.cursor ==> Feed(p, events).cursor < |h|
  {
    InOrderIsApplied(p, h, base, |h|);
    FeedIsBounded(p, events);
  }

  // End to end: a client that stands where the sync says, and feeds its tracker what the socket
  // sends of a full stream, applies every event and ends at the journal's current cursor, if and only
  // if nothing repeats an id already sent.
  lemma {:induction false} ClientCatchesUp(host: Host, visible: string -> bool, ops0: seq<Op>, requests: seq<Request>,
        ops1: seq<Op>,
                        ops2: seq<Op>, start: Socket, flushed: Socket, end: Socket, id: string, k: nat, p: Position)
    returns (frames: seq<Frame>)
    requires Subscribed(host, visible, ops0, requests, ops1, ops2, start, flushed, end)
    requires OnlyEntry(requests, id, k) && Accepted(Run(ops0), requests[k], visible) && requests[k].detail.Full?
    requires var h' := History(ops0 + ops1 + ops2, id);
             && AllFit(host, id, Numbered(h', 0, |h'|))
             && (exists base: nat :: Tracks(p, h', base))
             && p.cursor == StartOf(SyncOf(Run(ops0), id, requests[k].afterCursor).value, requests[k].afterCursor)
    ensures end.sent == start.sent + frames && id in Details(requests)
    ensures NothingRepeated(host, visible, ops0, requests, ops1, id) ==>
              AppliedOf(p, Events(frames, id)) == Events(frames, id)
    ensures Feed(p, Events(frames, id)).cursor == |History(ops0 + ops1 + ops2, id)|
       <==> NothingRepeated(host, visible, ops0, requests, ops1, id)
  {
    frames := WireOfOneEntry(host, visible, ops0, requests, ops1, ops2, start, flushed, end, id, k);
    var h' := History(ops0 + ops1 + ops2, id);
    var base: nat :| Tracks(p, h', base);
    NumberedWithin(h', p.cursor);
    FullDeliversAll(host, id, Numbered(h', p.cursor, |h'|));
    RestOrLess(p, h', base, Events(frames, id));
  }

  // ----- A stream asked for more than once -----

  // An entry asks for a replay of `id`: the stream is there and not hidden, and the entry's cursor is
  // canonical and lies at the floor or above and below the current cursor.
  predicate AsksForReplay(t: Tables, request: Request, visible: string -> bool, id: string) {
    && request.id == id && !Refused(request, visible)
    && t.writable && id in t.streams
    && request.afterCursor.Some? && Cursors.Canonical(request.afterCursor.value)
    && t.streams[id].floor <= Cursors.Parse(request.afterCursor.value) < t.streams[id].current
  }

  // How many entries ask for a replay of `id`.
  function Replays(t: Tables, requests: seq<Request>, visible: string -> bool, id: string): nat {
    if requests == [] then 0
    else
      var before := Replays(t, requests[..|requests| - 1], visible, id);
      if AsksForReplay(t, requests[|requests| - 1], visible, id) then before + 1 else before
  }

  lemma AskedIsReplayed(t: Tables, request: Request, visible: string -> bool, id: string)
    ensures AsksForReplay(t, request, visible, id)
       <==> && request.id == id && Accepted(t, request, visible)
            && SyncOf(t, id, request.afterCursor).value.mode.Replay?
  {
  }

  ghost predicate AllFull(requests: seq<Request>, id: string) {
    forall r :: r in requests && r.id == id ==> r.detail.Full?
  }

  // With no replay nothing precedes the live tail, with one a stretch ending at the current cursor
  // does, and with more the stretches overlap.
  ghost predicate Overlapping(replayed: seq<StoredEvent>, h: seq<EventBody>, n: nat) {
    && (n == 0 ==> replayed == [])
    && (n >= 1 ==> replayed != [] && replayed[|replayed| - 1].cursor == |h|)
    && (n == 1 ==> exists at: nat :: at < |h| && replayed == Numbered(h, at, |h|))
    && (n >= 2 ==> !Contiguous(replayed))
  }

  lemma OneMoreReplay(replayed: seq<StoredEvent>, h: seq<EventBody>, n: nat, at: nat)
    requires Overlapping(replayed, h, n) && at < |h|
    ensures Overlapping(replayed + Numbered(h, at, |h|), h, n + 1)
  {
    var more := Numbered(h, at, |h|);
    assert more[0].cursor == at + 1 && more[|more| - 1].cursor == |h|;
    NotContiguousAcross(replayed, more);
  }

  lemma OverlappingTail(replayed: seq<StoredEvent>, h: seq<EventBody>, h': seq<EventBody>, n: nat)
    requires Overlapping(replayed, h, n) && |h| <= |h'| && h'[..|h|] == h
    ensures Contiguous(replayed + Numbered(h', |h|, |h'|)) <==> n <= 1
  {
    var tail := Numbered(h', |h|, |h'|);
    if n == 0 {
      assert replayed + tail == tail;
    } else if n == 1 {
      var at: nat :| at < |h| && replayed == Numbered(h, at, |h|);
      JoinFrom(h, h', at);
    } else if tail != [] {
      NotContiguousAcross(replayed, tail);
    } else {
      assert replayed + tail == replayed;
    }
  }

  lemma SyncedFull(host: Host, ops: seq<Op>, id: string, afterCursor: Option<string>)
    requires SyncOf(Run(ops), id, afterCursor).Ok?
    requires AllFit(host, id, Numbered(History(ops, id), 0, |History(ops, id)|))
    ensures var h, sync := History(ops, id), SyncOf(Run(ops), id, afterCursor).value;
            var at := StartOf(sync, afterCursor);
            && at <= |h| && Delivered(host, id, Full, sync.events) == Numbered(h, at, |h|)
            && (at < |h| <==> sync.mode.Replay?)
  {
    var h, sync := History(ops, id), SyncOf(Run(ops), id, afterCursor).value;
    SyncEvents(ops, id, afterCursor);
    NumberedWithin(h, StartOf(sync, afterCursor));
    FullDeliversAll(host, id, sync.events);
  }

  lemma {:induction false} ReplaysExactly(host: Host, ops: seq<Op>, requests: seq<Request>, visible: string -> bool,
        id: string)
    requires AllFull(requests, id) && AllFit(host, id, Numbered(History(ops, id), 0, |History(ops, id)|))
    ensures Overlapping(Replayed(host, Run(ops), requests, visible, id), History(ops, id),
                        Replays(Run(ops), requests, visible, id))
  {
    if requests != [] {
      var t, n := Run(ops), |requests| - 1;
      var last := requests[n];
      ReplaysExactly(host, ops, requests[..n], visible, id);
      AskedIsReplayed(t, last, visible, id);
      if last.id == id && Accepted(t, last, visible) {
        assert last in requests;
        SyncedFull(host, ops, id, last.afterCursor);
        var sync := SyncOf(t, id, last.afterCursor).value;
        var before := Replayed(host, t, requests[..n], visible, id);
        if sync.mode.Replay? {
          OneMoreReplay(before, History(ops, id), Replays(t, requests[..n], visible, id), StartOf(sync, last.afterCursor));
        } else {
          assert before + [] == before;
        }
      }
    }
  }

  lemma NotContiguousAcross(a: seq<StoredEvent>, b: seq<StoredEvent>)
    requires b != []
    ensures (a + b)[|a + b| - 1] == b[|b| - 1]
    ensures a != [] && b[0].cursor <= a[|a| - 1].cursor ==> !Contiguous(a + b)
    ensures !Contiguous(a) ==> !Contiguous(a + b)
    ensures a == [] ==> a + b == b
  {
    var all := a + b;
    if a != [] && b[0].cursor <= a[|a| - 1].cursor {
      assert all[|a| - 1] == a[|a| - 1] && all[|a|] == b[0];
    }
    if !Contiguous(a) {
      var i, j :| 0 <= i && j == i + 1 && j < |a| && a[j].cursor != a[i].cursor + 1;
      assert all[i] == a[i] && all[j] == a[j];
    }
  }

  // The protocol allows a stream to appear in several entries. What a full stream is sent has no
  // gap, repeat or reordering exactly when at most one of its entries asks for a replay.
  lemma {:induction false} ContiguousExactlyWithoutRepeatedReplay(
      host: Host, visible: string -> bool, ops0: seq<Op>, requests: seq<Request>, ops1: seq<Op>, ops2: seq<Op>,
      start: Socket, flushed: Socket, end: Socket, id: string)
    returns (frames: seq<Frame>)
    requires Subscribed(host, visible, ops0, requests, ops1, ops2, start, flushed, end)
    requires id in Details(requests) && AllFull(requests, id) && Details(requests)[id].Full?
    requires NothingRepeated(host, visible, ops0, requests, ops1, id)
    requires var h' := History(ops0 + ops1 + ops2, id); AllFit(host, id, Numbered(h', 0, |h'|))
    ensures end.sent == start.sent + frames
    ensures Contiguous(Events(frames, id)) <==> Replays(Run(ops0), requests, visible, id) <= 1
  {
    frames := WireExact(host, visible, ops0, requests, ops1, ops2, start, flushed, end, id);
    var h, h' := History(ops0, id), History(ops0 + ops1 + ops2, id);
    FitParts(host, id, h, h');
    ReplaysExactly(host, ops0, requests, visible, id);
    OverlappingTail(Replayed(host, Run(ops0), requests, visible, id), h, h', Replays(Run(ops0), requests, visible, id));
  }

  lemma FitParts(host: Host, id: string, h: seq<EventBody>, h': seq<EventBody>)
    requires |h| <= |h'| && h'[..|h|] == h && AllFit(host, id, Numbered(h', 0, |h'|))
    ensures AllFit(host, id, Numbered(h, 0, |h|))
    ensures Delivered(host, id, Full, Numbered(h', |h|, |h'|)) == Numbered(h', |h|, |h'|)
  {
    forall e | e in Numbered(h, 0, |h|) || e in Numbered(h', |h|, |h'|) ensures e in Numbered(h', 0, |h'|) {
      assert Numbered(h', 0, |h'|)[e.cursor - 1] == e;
    }
    FullDeliversAll(host, id, Numbered(h', |h|, |h'|));
  }
}
