// The frames of a stream as a client reads them off the socket: what announces the stream's position,
// what ends its sync, and a client that goes by nothing but these frames.
module WireFrames {
  import opened Wrappers
  import Cursors
  import opened Journal
  import opened JournalProofs
  import opened Streams
  import opened StreamProofs
  import opened Subscription
  import opened SubscriptionProofs
  import opened Tracker

  // ----- The frames of one stream -----

  predicate IsOf(frame: Frame, id: string) {
    match frame
    case StateFrame(target) => target == id
    case SnapshotFrames(target, _) => target == id
    case EventFrame(live) => live.id == id
    case CompleteFrame(target, _, _) => target == id
    case _ => false
  }

  function FramesOf(frames: seq<Frame>, id: string): seq<Frame> {
    if frames == [] then []
    else
      var last, rest := frames[|frames| - 1], FramesOf(frames[..|frames| - 1], id);
      if IsOf(last, id) then rest + [last] else rest
  }

  function AsFrames(id: string, events: seq<StoredEvent>): seq<Frame> {
    if events == [] then []
    else AsFrames(id, events[..|events| - 1]) + [EventFrame(LiveEvent(id, events[|events| - 1]))]
  }

  lemma {:induction false} FramesSplit(a: seq<Frame>, b: seq<Frame>, id: string)
    ensures FramesOf(a + b, id) == FramesOf(a, id) + FramesOf(b, id)
    decreases |b|
  {
    if b == [] {
      assert a + b == a;
    } else {
      assert (a + b)[..|a + b| - 1] == a + b[..|b| - 1];
      FramesSplit(a, b[..|b| - 1], id);
    }
  }

  lemma OneFrameOf(frames: seq<Frame>, id: string)
    requires |frames| <= 1
    ensures FramesOf(frames, id) == if frames != [] && IsOf(frames[0], id) then frames else []
  {
    if frames != [] {
      assert frames[..0] == [] && frames == [frames[0]];
    }
  }

  lemma OutboundSplit(host: Host, a: seq<Frame>, b: seq<Frame>)
    ensures OutboundAll(host, a + b) == OutboundAll(host, a) + OutboundAll(host, b)
  {
  }

  lemma {:induction false} AsFramesSplit(id: string, a: seq<StoredEvent>, b: seq<StoredEvent>)
    ensures AsFrames(id, a + b) == AsFrames(id, a) + AsFrames(id, b)
    decreases |b|
  {
    if b == [] {
      assert a + b == a;
    } else {
      assert (a + b)[..|a + b| - 1] == a + b[..|b| - 1];
      AsFramesSplit(id, a, b[..|b| - 1]);
    }
  }

  lemma OutboundThree(host: Host, a: seq<Frame>, b: seq<Frame>, c: seq<Frame>, id: string)
    ensures FramesOf(OutboundAll(host, a + b + c), id)
         == FramesOf(OutboundAll(host, a), id) + FramesOf(OutboundAll(host, b), id) + FramesOf(OutboundAll(host, c), id)
  {
    OutboundSplit(host, a + b, c);
    OutboundSplit(host, a, b);
    FramesThree(OutboundAll(host, a), OutboundAll(host, b), OutboundAll(host, c), id);
  }

  lemma FramesThree(a: seq<Frame>, b: seq<Frame>, c: seq<Frame>, id: string)
    ensures FramesOf(a + b + c, id) == FramesOf(a, id) + FramesOf(b, id) + FramesOf(c, id)
  {
    FramesSplit(a + b, c, id);
    FramesSplit(a, b, id);
  }

  // ----- The answer to one entry -----

  // How a client's cursor stands to a stream.
  function ModeAt(s: Stream, afterCursor: Option<string>): SyncMode {
    if afterCursor.None? || !Cursors.Canonical(afterCursor.value) then SnapshotRequired
    else
      var c := Cursors.Parse(afterCursor.value);
      if c == s.current then Current else if s.floor <= c < s.current then Replay else SnapshotRequired
  }

  // What a stream's frames begin with.
  function Opening(id: string, s: Stream, afterCursor: Option<string>): seq<Frame> {
    match ModeAt(s, afterCursor)
    case Current => [StateFrame(id)]
    case Replay => []
    case SnapshotRequired => [SnapshotFrames(id, s.current)]
  }

  // What it misses from there on.
  function Missed(s: Stream, afterCursor: Option<string>): seq<StoredEvent> {
    if ModeAt(s, afterCursor).Replay? then Select(s.events, Cursors.Parse(afterCursor.value), s.current) else []
  }

  lemma SyncIs(t: Tables, request: Request, visible: string -> bool)
    requires Accepted(t, request, visible)
    ensures request.id in t.streams
    ensures var s, sync := t.streams[request.id], SyncOf(t, request.id, request.afterCursor).value;
            && sync.mode == ModeAt(s, request.afterCursor) && sync.currentCursor == s.current
            && sync.events == Missed(s, request.afterCursor)
            && (sync.mode.SnapshotRequired? ==> sync.baseline == Some(s.current))
  {
    var s := t.streams[request.id];
    NoneSelected(s.events, s.current);
  }

  lemma NoneSelected(events: map<nat, EventBody>, at: nat)
    ensures Select(events, at, at) == []
  {
  }

  // One event on its way to the socket.
  lemma OneLive(host: Host, target: string, detail: Detail, event: StoredEvent, id: string)
    ensures var frames := if Shows(detail, event) then [Outbound(host, EventFrame(LiveEvent(target, event)))] else [];
            FramesOf(frames, id) == if target == id then AsFrames(id, Delivered(host, id, detail, [event])) else []
  {
    var frames := if Shows(detail, event) then [Outbound(host, EventFrame(LiveEvent(target, event)))] else [];
    OneFrameOf(frames, id);
    assert [event][..0] == [] && Delivered(host, id, detail, []) == [] && AsFrames(id, []) == [];
  }

  lemma OneMoreDelivered(host: Host, id: string, detail: Detail, events: seq<StoredEvent>, event: StoredEvent)
    ensures AsFrames(id, Delivered(host, id, detail, events + [event]))
         == AsFrames(id, Delivered(host, id, detail, events)) + AsFrames(id, Delivered(host, id, detail, [event]))
  {
    DeliveredSplit(host, id, detail, events, [event]);
    AsFramesSplit(id, Delivered(host, id, detail, events), Delivered(host, id, detail, [event]));
  }

  lemma LastDelivered(host: Host, id: string, detail: Detail, events: seq<StoredEvent>)
    requires events != []
    ensures var n := |events| - 1;
            AsFrames(id, Delivered(host, id, detail, events))
            == AsFrames(id, Delivered(host, id, detail, events[..n])) + AsFrames(id, Delivered(host, id, detail, [events[n]]))
  {
    var n := |events| - 1;
    OneMoreDelivered(host, id, detail, events[..n], events[n]);
    assert events[..n] + [events[n]] == events;
  }

  lemma OneMoreEventFrame(host: Host, target: string, detail: Detail, events: seq<StoredEvent>, id: string)
    requires events != []
    ensures var n := |events| - 1;
            FramesOf(OutboundAll(host, EventFrames(target, detail, events)), id)
            == FramesOf(OutboundAll(host, EventFrames(target, detail, events[..n])), id)
             + if target == id then AsFrames(id, Delivered(host, id, detail, [events[n]])) else []
  {
    var n := |events| - 1;
    var before, last := EventFrames(target, detail, events[..n]), [EventFrame(LiveEvent(target, events[n]))];
    OneLive(host, target, detail, events[n], id);
    if Shows(detail, events[n]) {
      OutboundSplit(host, before, last);
      FramesSplit(OutboundAll(host, before), OutboundAll(host, last), id);
      assert OutboundAll(host, last) == [Outbound(host, last[0])];
    }
  }

  lemma {:induction false} EventFramesOf(host: Host, target: string, detail: Detail, events: seq<StoredEvent>, id: string)
    ensures FramesOf(OutboundAll(host, EventFrames(target, detail, events)), id)
         == if target == id then AsFrames(id, Delivered(host, id, detail, events)) else []
  {
    if events != [] {
      var n := |events| - 1;
      EventFramesOf(host, target, detail, events[..n], id);
      OneMoreEventFrame(host, target, detail, events, id);
      LastDelivered(host, id, detail, events);
    }
  }

  // The frames that an accepted entry gives its stream.
  function AnswerTo(host: Host, t: Tables, request: Request): seq<Frame>
    requires request.id in t.streams
  {
    var s := t.streams[request.id];
    Opening(request.id, s, request.afterCursor)
    + AsFrames(request.id, Delivered(host, request.id, request.detail, Missed(s, request.afterCursor)))
    + [CompleteFrame(request.id, s.current, ModeAt(s, request.afterCursor))]
  }

  lemma AnswerIs(s: Stream, request: Request, sync: StreamSync)
    requires sync.mode == ModeAt(s, request.afterCursor) && (sync.mode.SnapshotRequired? ==> sync.baseline == Some(s.current))
    ensures Answer(request, sync)
         == Opening(request.id, s, request.afterCursor) + EventFrames(request.id, request.detail, sync.events)
          + [CompleteFrame(request.id, sync.currentCursor, sync.mode)]
  {
  }

  lemma PositionFrames(host: Host, frames: seq<Frame>, target: string, id: string)
    requires |frames| <= 1 && forall f :: f in frames ==> !f.EventFrame? && IsOf(f, target)
    ensures FramesOf(OutboundAll(host, frames), id) == if target == id then frames else []
  {
    assert OutboundAll(host, frames) == frames;
    OneFrameOf(frames, id);
  }

  lemma AnswerFrames(host: Host, t: Tables, request: Request, visible: string -> bool, id: string)
    requires Accepted(t, request, visible)
    ensures request.id in t.streams
    ensures FramesOf(OutboundAll(host, Answer(request, SyncOf(t, request.id, request.afterCursor).value)), id)
         == if request.id == id then AnswerTo(host, t, request) else []
  {
    SyncIs(t, request, visible);
    var s, sync := t.streams[request.id], SyncOf(t, request.id, request.afterCursor).value;
    var opening := Opening(request.id, s, request.afterCursor);
    var body := EventFrames(request.id, request.detail, sync.events);
    var last := [CompleteFrame(request.id, sync.currentCursor, sync.mode)];
    AnswerIs(s, request, sync);
    OutboundThree(host, opening, body, last, id);
    PositionFrames(host, opening, request.id, id);
    PositionFrames(host, last, request.id, id);
    EventFramesOf(host, request.id, request.detail, sync.events, id);
  }

  lemma AdditionFrames(host: Host, t: Tables, request: Request, visible: string -> bool, id: string)
    ensures Accepted(t, request, visible) ==> request.id in t.streams
    ensures FramesOf(OutboundAll(host, Addition(t, request, visible)), id)
         == if request.id == id && Accepted(t, request, visible) then AnswerTo(host, t, request) else []
  {
    if Accepted(t, request, visible) {
      AnswerFrames(host, t, request, visible, id);
    } else {
      OneFrameOf(OutboundAll(host, Addition(t, request, visible)), id);
    }
  }

  lemma {:induction false} SubscribeFrames(host: Host, t: Tables, requests: seq<Request>, visible: string -> bool, id: string)
    requires forall i :: 0 <= i < |requests| ==> requests[i].id != id
    ensures FramesOf(OutboundAll(host, SubscribeOf(t, requests, visible).messages), id) == []
  {
    if requests != [] {
      var n := |requests| - 1;
      SubscribeFrames(host, t, requests[..n], visible, id);
      OneMoreEntry(host, t, requests, visible, id);
    }
  }

  lemma OneMoreEntry(host: Host, t: Tables, requests: seq<Request>, visible: string -> bool, id: string)
    requires requests != []
    ensures var n := |requests| - 1;
            && (Accepted(t, requests[n], visible) ==> requests[n].id in t.streams)
            && FramesOf(OutboundAll(host, SubscribeOf(t, requests, visible).messages), id)
            == FramesOf(OutboundAll(host, SubscribeOf(t, requests[..n], visible).messages), id)
             + if requests[n].id == id && Accepted(t, requests[n], visible) then AnswerTo(host, t, requests[n]) else []
  {
    var n := |requests| - 1;
    var before, more := SubscribeOf(t, requests[..n], visible).messages, Addition(t, requests[n], visible);
    SubscribeAdds(t, requests, visible);
    OutboundSplit(host, before, more);
    FramesSplit(OutboundAll(host, before), OutboundAll(host, more), id);
    AdditionFrames(host, t, requests[n], visible, id);
  }

  lemma {:induction false} OneEntryFrames(host: Host, t: Tables, requests: seq<Request>, visible: string -> bool, id: string,
        k: nat)
    requires OnlyEntry(requests, id, k) && Accepted(t, requests[k], visible)
    ensures id in t.streams
    ensures FramesOf(OutboundAll(host, SubscribeOf(t, requests, visible).messages), id) == AnswerTo(host, t, requests[k])
  {
    var n := |requests| - 1;
    OneMoreEntry(host, t, requests, visible, id);
    if k == n {
      SubscribeFrames(host, t, requests[..n], visible, id);
    } else {
      OneEntryFrames(host, t, requests[..n], visible, id, k);
    }
  }

  // ----- The live tail -----

  lemma LiveOne(host: Host, subscriptions: map<string, Detail>, live: LiveEvent, id: string)
    requires id in subscriptions
    ensures FramesOf(LiveFrames(host, subscriptions, live), id)
         == if live.id == id then AsFrames(id, Delivered(host, id, subscriptions[id], [live.event])) else []
  {
    if live.id in subscriptions {
      OneLive(host, live.id, subscriptions[live.id], live.event, id);
      assert LiveEvent(live.id, live.event) == live;
    }
  }

  lemma {:induction false} LiveTailFrames(host: Host, subscriptions: map<string, Detail>, events: seq<LiveEvent>, id: string)
    requires id in subscriptions
    ensures FramesOf(LiveTail(host, subscriptions, events), id)
         == AsFrames(id, Delivered(host, id, subscriptions[id], Project(events, id)))
  {
    if events != [] {
      var n := |events| - 1;
      LiveTailFrames(host, subscriptions, events[..n], id);
      FramesSplit(LiveTail(host, subscriptions, events[..n]), LiveFrames(host, subscriptions, events[n]), id);
      LiveOne(host, subscriptions, events[n], id);
      if events[n].id == id {
        OneMoreDelivered(host, id, subscriptions[id], Project(events[..n], id), events[n].event);
      }
    }
  }

  // What the flush puts on the wire.
  lemma FlushIs(host: Host, visible: string -> bool, ops0: seq<Op>, requests: seq<Request>, ops1: seq<Op>, start: Socket,
                flushed: Socket, id: string)
    returns (sorted: seq<LiveEvent>)
    requires id in Details(requests) && Flushed(host, Waiting(host, visible, ops0, requests, ops1, start), flushed)
    ensures flushed.subscriptions == Details(requests) && !flushed.syncing && flushed.synchronized
    ensures flushed.sent
         == start.sent + (OutboundAll(host, Awaited(SubscribeOf(Run(ops0), requests, visible)))
                          + LiveTail(host, Details(requests), sorted))
    ensures Project(sorted, id) == Fresh(Project(Emitted(ops0, ops1), id), SyncedIds(ops0, requests, visible))
  {
    var waiting, ids := Waiting(host, visible, ops0, requests, ops1, start), SyncedIds(ops0, requests, visible);
    WaitingBuffers(host, visible, ops0, requests, ops1, start, id);
    sorted := FlushFrames(host, waiting, flushed);
    EmittedIsGrowth(ops0, ops1, id);
    NumberedIncreasing(History(ops0 + ops1, id), |History(ops0, id)|, |History(ops0 + ops1, id)|);
    UnsentIsFresh(waiting.pending, ids, id);
    FreshIsIncreasing(Project(waiting.pending, id), ids);
    SortKeepsStreams(host, sorted, Unsent(waiting.pending, ids), id);
  }

  // The events that reach the socket after the sync.
  ghost function Tail(host: Host, visible: string -> bool, ops0: seq<Op>, requests: seq<Request>, ops1: seq<Op>, ops2: seq<Op>,
                      id: string, detail: Detail): seq<StoredEvent>
  {
    Delivered(host, id, detail, Fresh(Project(Emitted(ops0, ops1), id), SyncedIds(ops0, requests, visible)))
    + Delivered(host, id, detail, Project(Emitted(ops0 + ops1, ops2), id))
  }

  lemma AwaitedFrames(host: Host, result: SubscribeResult, id: string)
    ensures FramesOf(OutboundAll(host, Awaited(result)), id) == FramesOf(OutboundAll(host, result.messages), id)
  {
    OutboundSplit(host, [AcceptedFrame(result.accepted)], result.messages);
    FramesSplit(OutboundAll(host, [AcceptedFrame(result.accepted)]), OutboundAll(host, result.messages), id);
    OneFrameOf(OutboundAll(host, [AcceptedFrame(result.accepted)]), id);
  }

  // Every frame of a stream that is asked for once and accepted, in order: one that says that the client is
  // current, or one that gives it a snapshot at the current cursor, or neither and a replay of what it
  // missed; one that says that the sync is complete, in which way and at which cursor; and then the live
  // events.
  lemma FramesExactly(host: Host, visible: string -> bool, ops0: seq<Op>, requests: seq<Request>, ops1: seq<Op>, ops2: seq<Op>,
                      start: Socket, flushed: Socket, end: Socket, id: string, k: nat)
    returns (frames: seq<Frame>)
    requires Subscribed(host, visible, ops0, requests, ops1, ops2, start, flushed, end)
    requires OnlyEntry(requests, id, k) && Accepted(Run(ops0), requests[k], visible)
    ensures end.sent == start.sent + frames && id in Run(ops0).streams
    ensures FramesOf(frames, id)
         == AnswerTo(host, Run(ops0), requests[k])
          + AsFrames(id, Tail(host, visible, ops0, requests, ops1, ops2, id, requests[k].detail))
  {
    var t, later, detail := Run(ops0), Emitted(ops0 + ops1, ops2), requests[k].detail;
    OneEntryReplays(host, t, requests, visible, id, k);
    OneEntryFrames(host, t, requests, visible, id, k);
    var result := SubscribeOf(t, requests, visible);
    var sorted := FlushIs(host, visible, ops0, requests, ops1, start, flushed, id);
    AwaitedFrames(host, result, id);
    frames := TailFrames(host, start, flushed, OutboundAll(host, Awaited(result)), sorted, later, id);
    Regrouped(AnswerTo(host, t, requests[k]), id, Delivered(host, id, detail, Project(sorted, id)),
              Delivered(host, id, detail, Project(later, id)));
  }

  lemma TailFrames(host: Host, start: Socket, flushed: Socket, head: seq<Frame>, sorted: seq<LiveEvent>, later: seq<LiveEvent>,
                   id: string)
    returns (frames: seq<Frame>)
    requires !flushed.syncing && flushed.synchronized && id in flushed.subscriptions
    requires flushed.sent == start.sent + (head + LiveTail(host, flushed.subscriptions, sorted))
    ensures Listen(host, flushed, later).sent == start.sent + frames
    ensures var detail := flushed.subscriptions[id];
            FramesOf(frames, id)
            == FramesOf(head, id) + AsFrames(id, Delivered(host, id, detail, Project(sorted, id)))
             + AsFrames(id, Delivered(host, id, detail, Project(later, id)))
  {
    var early, late := LiveTail(host, flushed.subscriptions, sorted), LiveTail(host, flushed.subscriptions, later);
    ListenWhileLive(host, flushed, later);
    frames := head + early + late;
    assert start.sent + (head + early) + late == start.sent + frames;
    FramesThree(head, early, late, id);
    LiveTailFrames(host, flushed.subscriptions, sorted, id);
    LiveTailFrames(host, flushed.subscriptions, later, id);
  }

  lemma Regrouped(a: seq<Frame>, id: string, b: seq<StoredEvent>, c: seq<StoredEvent>)
    ensures a + AsFrames(id, b) + AsFrames(id, c) == a + AsFrames(id, b + c)
  {
    AsFramesSplit(id, b, c);
  }

  // What a stream is missed from is its history.
  lemma MissedIsHistory(ops: seq<Op>, id: string, afterCursor: Option<string>)
    requires id in Run(ops).streams
    ensures var s, h := Run(ops).streams[id], History(ops, id);
            && s.current == |h| && s.floor <= |h|
            && (ModeAt(s, afterCursor).Replay? ==>
                  var c := Cursors.Parse(afterCursor.value);
                  c < |h| && Missed(s, afterCursor) == Numbered(h, c, |h|))
  {
    JournalExact(ops);
    var s := Run(ops).streams[id];
    assert Histories(ops)[id] == History(ops, id);
    if ModeAt(s, afterCursor).Replay? {
      SelectContiguous(s, History(ops, id), Cursors.Parse(afterCursor.value), s.current);
    }
  }

  // How many frames of a stream say where it stands, and which.
  function CountIf(frames: seq<Frame>, p: Frame -> bool): nat {
    if frames == [] then 0
    else
      var rest := CountIf(frames[..|frames| - 1], p);
      if p(frames[|frames| - 1]) then rest + 1 else rest
  }

  lemma {:induction false} CountSplit(a: seq<Frame>, b: seq<Frame>, p: Frame -> bool)
    ensures CountIf(a + b, p) == CountIf(a, p) + CountIf(b, p)
    decreases |b|
  {
    if b == [] {
      assert a + b == a;
    } else {
      assert (a + b)[..|a + b| - 1] == a + b[..|b| - 1];
      CountSplit(a, b[..|b| - 1], p);
    }
  }

  lemma {:induction false} NoneCount(id: string, events: seq<StoredEvent>, p: Frame -> bool)
    requires forall frame: Frame :: frame.EventFrame? ==> !p(frame)
    ensures CountIf(AsFrames(id, events), p) == 0
  {
    if events != [] {
      NoneCount(id, events[..|events| - 1], p);
      var rest, last := AsFrames(id, events[..|events| - 1]), [EventFrame(LiveEvent(id, events[|events| - 1]))];
      assert (rest + last)[..|rest|] == rest;
    }
  }

  lemma CountOne(frames: seq<Frame>, p: Frame -> bool)
    requires |frames| <= 1
    ensures CountIf(frames, p) == if frames != [] && p(frames[0]) then 1 else 0
  {
    if frames != [] {
      assert frames[..0] == [] && CountIf([], p) == 0;
    }
  }

  // Exactly one completion; one statement of being current, or one snapshot, or neither.
  lemma PositionsExactly(host: Host, visible: string -> bool, ops0: seq<Op>, requests: seq<Request>, ops1: seq<Op>,
        ops2: seq<Op>, start: Socket, flushed: Socket, end: Socket, id: string, k: nat)
    returns (frames: seq<Frame>)
    requires Subscribed(host, visible, ops0, requests, ops1, ops2, start, flushed, end)
    requires OnlyEntry(requests, id, k) && Accepted(Run(ops0), requests[k], visible)
    ensures end.sent == start.sent + frames && id in Run(ops0).streams
    ensures var own, mode := FramesOf(frames, id), ModeAt(Run(ops0).streams[id], requests[k].afterCursor);
            && CountIf(own, (f: Frame) => f.CompleteFrame?) == 1
            && CountIf(own, (f: Frame) => f == CompleteFrame(id, |History(ops0, id)|, mode)) == 1
            && CountIf(own, (f: Frame) => f.StateFrame?) == (if mode.Current? then 1 else 0)
            && CountIf(own, (f: Frame) => f.SnapshotFrames?) == (if mode.SnapshotRequired? then 1 else 0)
            && CountIf(own, (f: Frame) => f == SnapshotFrames(id, |History(ops0, id)|))
            == (if mode.SnapshotRequired? then 1 else 0)
  {
    frames := FramesExactly(host, visible, ops0, requests, ops1, ops2, start, flushed, end, id, k);
    MissedIsHistory(ops0, id, requests[k].afterCursor);
    var s, detail := Run(ops0).streams[id], requests[k].detail;
    var mode, n := ModeAt(s, requests[k].afterCursor), |History(ops0, id)|;
    var opening := Opening(id, s, requests[k].afterCursor);
    var missed := Delivered(host, id, detail, Missed(s, requests[k].afterCursor));
    var tail := Tail(host, visible, ops0, requests, ops1, ops2, id, detail);
    CountParts(opening, id, missed, CompleteFrame(id, n, mode), tail, (f: Frame) => f.CompleteFrame?);
    CountParts(opening, id, missed, CompleteFrame(id, n, mode), tail, (f: Frame) => f == CompleteFrame(id, n, mode));
    CountParts(opening, id, missed, CompleteFrame(id, n, mode), tail, (f: Frame) => f.StateFrame?);
    CountParts(opening, id, missed, CompleteFrame(id, n, mode), tail, (f: Frame) => f.SnapshotFrames?);
    CountParts(opening, id, missed, CompleteFrame(id, n, mode), tail, (f: Frame) => f == SnapshotFrames(id, n));
  }

  lemma CountParts(opening: seq<Frame>, id: string, missed: seq<StoredEvent>, complete: Frame, tail: seq<StoredEvent>,
                   p: Frame -> bool)
    requires |opening| <= 1 && forall frame: Frame :: frame.EventFrame? ==> !p(frame)
    ensures CountIf(opening + AsFrames(id, missed) + [complete] + AsFrames(id, tail), p)
         == (if opening != [] && p(opening[0]) then 1 else 0) + if p(complete) then 1 else 0
  {
    CountSplit(opening + AsFrames(id, missed) + [complete], AsFrames(id, tail), p);
    CountSplit(opening + AsFrames(id, missed), [complete], p);
    CountSplit(opening, AsFrames(id, missed), p);
    NoneCount(id, missed, p);
    NoneCount(id, tail, p);
    CountOne(opening, p);
    CountOne([complete], p);
  }

  // ----- A client that goes by the frames -----

  // A snapshot puts the tracker at its baseline; an event is given to it.
  function Reads(p: Position, frames: seq<Frame>, id: string): Position {
    if frames == [] then p
    else
      var before, last := Reads(p, frames[..|frames| - 1], id), frames[|frames| - 1];
      match last
      case SnapshotFrames(target, baseline) => if target == id then Position(baseline, map[]) else before
      case EventFrame(live) => if live.id == id then After(before, live.event.cursor, live.event.body.eventId) else before
      case _ => before
  }

  // Every event read is answered `applied`.
  ghost predicate AppliesAll(p: Position, frames: seq<Frame>, id: string) {
    frames == [] || (
      var before, last := frames[..|frames| - 1], frames[|frames| - 1];
      && AppliesAll(p, before, id)
      && (last.EventFrame? && last.live.id == id ==>
            Judge(Reads(p, before, id), last.live.event.cursor, last.live.event.body.eventId).Applied?))
  }

  lemma {:induction false} ReadsItsOwn(p: Position, frames: seq<Frame>, id: string)
    ensures Reads(p, frames, id) == Reads(p, FramesOf(frames, id), id)
    ensures AppliesAll(p, frames, id) <==> AppliesAll(p, FramesOf(frames, id), id)
  {
    if frames != [] {
      var before, last := frames[..|frames| - 1], frames[|frames| - 1];
      ReadsItsOwn(p, before, id);
      var own := FramesOf(before, id);
      if IsOf(last, id) {
        assert (own + [last])[..|own|] == own;
      }
    }
  }

  lemma {:induction false} ReadsInTwo(p: Position, a: seq<Frame>, b: seq<Frame>, id: string)
    ensures Reads(p, a + b, id) == Reads(Reads(p, a, id), b, id)
    ensures AppliesAll(p, a + b, id) <==> AppliesAll(p, a, id) && AppliesAll(Reads(p, a, id), b, id)
    decreases |b|
  {
    if b == [] {
      assert a + b == a;
    } else {
      assert (a + b)[..|a + b| - 1] == a + b[..|b| - 1];
      ReadsInTwo(p, a, b[..|b| - 1], id);
    }
  }

  lemma {:induction false} ReadsEvents(p: Position, events: seq<StoredEvent>, id: string)
    ensures Reads(p, AsFrames(id, events), id) == Feed(p, events)
    ensures AppliesAll(p, AsFrames(id, events), id) <==> AppliedOf(p, events) == events
    ensures |AppliedOf(p, events)| <= |events|
  {
    if events != [] {
      var n := |events| - 1;
      ReadsEvents(p, events[..n], id);
      ReadsOneMore(p, AsFrames(id, events[..n]), events[n], id);
      AppliesOneMore(p, events);
    }
  }

  lemma ReadsOneMore(p: Position, frames: seq<Frame>, event: StoredEvent, id: string)
    ensures var all, q := frames + [EventFrame(LiveEvent(id, event))], Reads(p, frames, id);
            && Reads(p, all, id) == After(q, event.cursor, event.body.eventId)
            && (AppliesAll(p, all, id) <==> AppliesAll(p, frames, id) && Judge(q, event.cursor, event.body.eventId).Applied?)
  {
    var all := frames + [EventFrame(LiveEvent(id, event))];
    assert all[..|frames|] == frames;
  }

  lemma {:induction false} AppliesOneMore(p: Position, events: seq<StoredEvent>)
    requires events != [] && |AppliedOf(p, events[..|events| - 1])| <= |events| - 1
    ensures var n := |events| - 1;
            && |AppliedOf(p, events)| <= |events|
            && (AppliedOf(p, events) == events
                <==> AppliedOf(p, events[..n]) == events[..n]
                     && Judge(Feed(p, events[..n]), events[n].cursor, events[n].body.eventId).Applied?)
  {
    var n := |events| - 1;
    assert events == events[..n] + [events[n]];
  }

  lemma ReadsOne(p: Position, frame: Frame, id: string)
    requires !frame.EventFrame?
    ensures Reads(p, [frame], id) == (if frame.SnapshotFrames? && frame.id == id then Position(frame.baseline, map[]) else p)
    ensures AppliesAll(p, [frame], id)
  {
    assert [frame][..0] == [] && Reads(p, [], id) == p && AppliesAll(p, [], id);
  }

  // Reading the frames of a stream: past its opening, the events of the replay and of the tail.
  lemma ReadsParts(p: Position, opening: seq<Frame>, missed: seq<StoredEvent>, complete: Frame, tail: seq<StoredEvent>,
                   id: string)
    requires opening == [] || (|opening| == 1 && !opening[0].EventFrame?)
    requires complete.CompleteFrame?
    ensures var frames := opening + AsFrames(id, missed) + [complete] + AsFrames(id, tail);
            var q := if opening != [] && opening[0].SnapshotFrames? && opening[0].id == id
                     then Position(opening[0].baseline, map[]) else p;
            && Reads(p, frames, id) == Feed(q, missed + tail)
            && (AppliesAll(p, frames, id) <==> AppliedOf(q, missed + tail) == missed + tail)
  {
    var q := Reads(p, opening, id);
    if opening != [] {
      assert opening == [opening[0]];
      ReadsOne(p, opening[0], id);
    }
    ReadsInTwo(p, opening + AsFrames(id, missed) + [complete], AsFrames(id, tail), id);
    ReadsInTwo(p, opening + AsFrames(id, missed), [complete], id);
    ReadsInTwo(p, opening, AsFrames(id, missed), id);
    ReadsOne(Reads(p, opening + AsFrames(id, missed), id), complete, id);
    ReadsInTwo(q, AsFrames(id, missed), AsFrames(id, tail), id);
    AsFramesSplit(id, missed, tail);
    ReadsEvents(q, missed + tail, id);
  }

  lemma {:induction false} EventsOfOwn(frames: seq<Frame>, id: string)
    ensures Events(FramesOf(frames, id), id) == Events(frames, id)
  {
    if frames != [] {
      var before, last := frames[..|frames| - 1], frames[|frames| - 1];
      EventsOfOwn(before, id);
      var own := FramesOf(before, id);
      if IsOf(last, id) {
        assert (own + [last])[..|own|] == own;
      }
    }
  }

  lemma {:induction false} EventsOfFrames(id: string, events: seq<StoredEvent>)
    ensures Events(AsFrames(id, events), id) == events
  {
    if events != [] {
      var n := |events| - 1;
      EventsOfFrames(id, events[..n]);
      var rest := AsFrames(id, events[..n]);
      assert (rest + [EventFrame(LiveEvent(id, events[n]))])[..|rest|] == rest;
      assert events == events[..n] + [events[n]];
    }
  }

  lemma EventsOfParts(opening: seq<Frame>, missed: seq<StoredEvent>, complete: Frame, tail: seq<StoredEvent>, id: string)
    requires |opening| <= 1 && (forall f :: f in opening ==> !f.EventFrame?) && !complete.EventFrame?
    ensures Events(opening + AsFrames(id, missed) + [complete] + AsFrames(id, tail), id) == missed + tail
  {
    NoEvent(opening, AsFrames(id, missed), [complete], id);
    EventsSplit(opening + AsFrames(id, missed) + [complete], AsFrames(id, tail), id);
    EventsOfFrames(id, missed);
    EventsOfFrames(id, tail);
  }

  lemma NoEvent(before: seq<Frame>, frames: seq<Frame>, after: seq<Frame>, id: string)
    requires |before| <= 1 && |after| <= 1
    requires (forall f :: f in before ==> !f.EventFrame?) && forall f :: f in after ==> !f.EventFrame?
    ensures Events(before + frames + after, id) == Events(frames, id)
  {
    OneFrame(before, id);
    OneFrame(after, id);
    EventsSplit(before + frames, after, id);
    EventsSplit(before, frames, id);
    assert [] + Events(frames, id) + [] == Events(frames, id);
  }

  // The client's own position: at the cursor it asks from, having applied the journal up to there, when the
  // journal reaches so far; any at all when it asks from nowhere.
  ghost predicate AsksFrom(p: Position, h: seq<EventBody>, afterCursor: Option<string>) {
    afterCursor.Some? && Cursors.Canonical(afterCursor.value) ==>
      && p.cursor == Cursors.Parse(afterCursor.value)
      && (p.cursor <= |h| ==> exists base: nat :: Tracks(p, h, base))
  }

  // Where the opening leaves the client.
  function Opened(p: Position, s: Stream, afterCursor: Option<string>): Position {
    if ModeAt(s, afterCursor).SnapshotRequired? then Position(s.current, map[]) else p
  }

  lemma OpenedTracks(ops: seq<Op>, request: Request, visible: string -> bool, h': seq<EventBody>, p: Position)
    returns (base: nat)
    requires Accepted(Run(ops), request, visible) && AsksFrom(p, h', request.afterCursor)
    requires var h := History(ops, request.id); |h| <= |h'| && h'[..|h|] == h
    ensures request.id in Run(ops).streams
    ensures var q := Opened(p, Run(ops).streams[request.id], request.afterCursor);
            && Tracks(q, h', base)
            && q.cursor == StartOf(SyncOf(Run(ops), request.id, request.afterCursor).value, request.afterCursor)
  {
    var s := Run(ops).streams[request.id];
    MissedIsHistory(ops, request.id, request.afterCursor);
    SyncIs(Run(ops), request, visible);
    if ModeAt(s, request.afterCursor).SnapshotRequired? {
      base := s.current;
    } else {
      base :| Tracks(p, h', base);
    }
  }

  // A client that asks for a full stream once, from where it stands or from nowhere, and then goes by the
  // frames alone, answers `applied` to every event and ends at the journal's current cursor, if and only if
  // no id is repeated.
  lemma ClientReadsUp(host: Host, visible: string -> bool, ops0: seq<Op>, requests: seq<Request>, ops1: seq<Op>,
        ops2: seq<Op>, start: Socket, flushed: Socket, end: Socket, id: string, k: nat, p: Position)
    returns (frames: seq<Frame>)
    requires Subscribed(host, visible, ops0, requests, ops1, ops2, start, flushed, end)
    requires OnlyEntry(requests, id, k) && Accepted(Run(ops0), requests[k], visible) && requests[k].detail.Full?
    requires var h' := History(ops0 + ops1 + ops2, id);
             AllFit(host, id, Numbered(h', 0, |h'|)) && AsksFrom(p, h', requests[k].afterCursor)
    ensures end.sent == start.sent + frames && id in Details(requests)
    ensures AppliesAll(p, frames, id) && Reads(p, frames, id).cursor == |History(ops0 + ops1 + ops2, id)|
       <==> NothingRepeated(host, visible, ops0, requests, ops1, id)
  {
    var h' := History(ops0 + ops1 + ops2, id);
    frames := FramesExactly(host, visible, ops0, requests, ops1, ops2, start, flushed, end, id, k);
    var wire := WireOfOneEntry(host, visible, ops0, requests, ops1, ops2, start, flushed, end, id, k);
    SameFrames(start.sent, frames, wire);
    HistoryGrows(ops0, ops1, ops2, id);
    var base := OpenedTracks(ops0, requests[k], visible, h', p);
    var q := Opened(p, Run(ops0).streams[id], requests[k].afterCursor);
    var events := ReadsOf(host, visible, ops0, requests, ops1, ops2, id, k, frames, p);
    NumberedWithin(h', q.cursor);
    FullDeliversAll(host, id, Numbered(h', q.cursor, |h'|));
    RestOrLess(q, h', base, events);
  }

  lemma SameFrames(sent: seq<Frame>, a: seq<Frame>, b: seq<Frame>)
    requires sent + a == sent + b
    ensures a == b
  {
    assert a == (sent + a)[|sent|..] && b == (sent + b)[|sent|..];
  }

  lemma HistoryGrows(ops0: seq<Op>, ops1: seq<Op>, ops2: seq<Op>, id: string)
    ensures var h, h' := History(ops0, id), History(ops0 + ops1 + ops2, id); |h| <= |h'| && h'[..|h|] == h
  {
    EmittedIsGrowth(ops0, ops1, id);
    EmittedIsGrowth(ops0 + ops1, ops2, id);
    JoinNumbered(History(ops0, id), History(ops0 + ops1, id), History(ops0 + ops1 + ops2, id));
  }

  // What reading the frames comes to: feeding the tracker their events from where the opening left it.
  lemma ReadsOf(host: Host, visible: string -> bool, ops0: seq<Op>, requests: seq<Request>, ops1: seq<Op>, ops2: seq<Op>,
                id: string, k: nat, frames: seq<Frame>, p: Position)
    returns (events: seq<StoredEvent>)
    requires k < |requests| && requests[k].id == id && id in Run(ops0).streams
    requires FramesOf(frames, id)
          == AnswerTo(host, Run(ops0), requests[k])
           + AsFrames(id, Tail(host, visible, ops0, requests, ops1, ops2, id, requests[k].detail))
    ensures events == Events(frames, id)
    ensures var q := Opened(p, Run(ops0).streams[id], requests[k].afterCursor);
            Reads(p, frames, id) == Feed(q, events) && (AppliesAll(p, frames, id) <==> AppliedOf(q, events) == events)
  {
    var s, request := Run(ops0).streams[id], requests[k];
    var opening := Opening(id, s, request.afterCursor);
    var missed := Delivered(host, id, request.detail, Missed(s, request.afterCursor));
    var complete := CompleteFrame(id, s.current, ModeAt(s, request.afterCursor));
    var tail := Tail(host, visible, ops0, requests, ops1, ops2, id, request.detail);
    events := missed + tail;
    EventsOfOwn(frames, id);
    EventsOfParts(opening, missed, complete, tail, id);
    ReadsItsOwn(p, frames, id);
    ReadsParts(p, opening, missed, complete, tail, id);
  }

  // ----- Which entries are accepted, and what the others are told -----

  predicate Hidden(request: Request, visible: string -> bool) {
    |request.id| >= 8 && request.id[..8] == "session:" && !visible(request.id)
  }

  predicate IsTaken(t: Tables, request: Request, visible: string -> bool) {
    && !Hidden(request, visible) && request.id in t.streams && t.writable
    && (request.afterCursor.Some? ==> Cursors.Canonical(request.afterCursor.value))
  }

  function Taken(t: Tables, requests: seq<Request>, visible: string -> bool): seq<(string, SyncMode)> {
    if requests == [] then []
    else
      var last, rest := requests[|requests| - 1], Taken(t, requests[..|requests| - 1], visible);
      if IsTaken(t, last, visible) then rest + [(last.id, ModeAt(t.streams[last.id], last.afterCursor))] else rest
  }

  // A cursor that is none is only found out on a stream that is there to be seen.
  function Told(t: Tables, requests: seq<Request>, visible: string -> bool): seq<string> {
    if requests == [] then []
    else
      var last, rest := requests[|requests| - 1], Told(t, requests[..|requests| - 1], visible);
      if IsTaken(t, last, visible) then rest
      else if !Hidden(last, visible) && last.id in t.streams
              && last.afterCursor.Some? && !Cursors.Canonical(last.afterCursor.value)
      then rest + ["cursor_invalid"] else rest + ["stream_not_found"]
  }

  function Codes(frames: seq<Frame>): seq<string> {
    if frames == [] then []
    else
      var last, rest := frames[|frames| - 1], Codes(frames[..|frames| - 1]);
      if last.ErrorFrame? then rest + [last.code] else rest
  }

  lemma {:induction false} CodesSplit(a: seq<Frame>, b: seq<Frame>)
    ensures Codes(a + b) == Codes(a) + Codes(b)
    decreases |b|
  {
    if b == [] {
      assert a + b == a;
    } else {
      assert (a + b)[..|a + b| - 1] == a + b[..|b| - 1];
      CodesSplit(a, b[..|b| - 1]);
    }
  }

  lemma {:induction false} NoCodes(frames: seq<Frame>)
    requires forall f :: f in frames ==> !f.ErrorFrame?
    ensures Codes(frames) == []
  {
    if frames != [] {
      NoCodes(frames[..|frames| - 1]);
    }
  }

  lemma AnswerHasNoCodes(request: Request, sync: StreamSync)
    ensures Codes(Answer(request, sync)) == []
  {
    EventFramesCarry(request.id, request.detail, sync.events);
    NoCodes(Answer(request, sync));
  }

  // The streams that the accepted frame lists, each with its way of sync, and the errors, in the order of
  // the request.
  lemma {:induction false} SubscribeExactly(t: Tables, requests: seq<Request>, visible: string -> bool)
    ensures SubscribeOf(t, requests, visible).accepted == Taken(t, requests, visible)
    ensures Codes(SubscribeOf(t, requests, visible).messages) == Told(t, requests, visible)
  {
    if requests != [] {
      var n := |requests| - 1;
      var last, before := requests[n], SubscribeOf(t, requests[..n], visible);
      SubscribeExactly(t, requests[..n], visible);
      if IsTaken(t, last, visible) {
        SyncIs(t, last, visible);
        var sync := SyncOf(t, last.id, last.afterCursor).value;
        AnswerHasNoCodes(last, sync);
        CodesSplit(before.messages, Answer(last, sync));
      } else {
        var code := if Refused(last, visible) || SyncOf(t, last.id, last.afterCursor) != Err(CursorInvalid)
                    then "stream_not_found" else "cursor_invalid";
        assert (before.messages + [ErrorFrame(code)])[..|before.messages|] == before.messages;
      }
    }
  }

  function Indices(requests: seq<Request>, p: Request -> bool): set<int> {
    set i | 0 <= i < |requests| && p(requests[i])
  }

  lemma NoneCounts(requests: seq<Request>, p: Request -> bool)
    requires requests == []
    ensures |set i | 0 <= i < |requests| && p(requests[i])| == 0
  {
    assert Indices(requests, p) == {};
  }

  lemma OneMoreCounts(rest: seq<Request>, last: Request, p: Request -> bool)
    ensures var all := rest + [last];
            |set i | 0 <= i < |all| && p(all[i])| == |set i | 0 <= i < |rest| && p(rest[i])| + if p(last) then 1 else 0
  {
    var all := rest + [last];
    var before, after := (set i | 0 <= i < |rest| && p(rest[i])), (set i | 0 <= i < |all| && p(all[i]));
    assert after == if p(last) then before + {|rest|} else before;
  }

  lemma {:induction false} CountIsCardinal(requests: seq<Request>, p: Request -> bool)
    ensures Subscription.CountIf(requests, p) == |set i | 0 <= i < |requests| && p(requests[i])|
  {
    if requests == [] {
      NoneCounts(requests, p);
    } else {
      var n := |requests| - 1;
      CountIsCardinal(requests[..n], p);
      OneMoreCounts(requests[..n], requests[n], p);
      assert requests[..n] + [requests[n]] == requests;
    }
  }

  // A request is valid when it names the host stream, at most one session in full and at most five streams
  // in summary.
  lemma ValidExactly(hostStreamId: string, requests: seq<Request>)
    ensures ValidSubscriptions(hostStreamId, requests)
       <==> && (exists r :: r in requests && r.id == hostStreamId)
            && |set i | 0 <= i < |requests| && requests[i].detail.Full?
                        && |requests[i].id| >= 8 && requests[i].id[..8] == "session:"| <= 1
            && |set i | 0 <= i < |requests| && requests[i].detail.Summary?| <= 5
  {
    var full, summary := (r: Request) => r.detail.Full? && IsSession(r.id), (r: Request) => r.detail.Summary?;
    CountIsCardinal(requests, full);
    CountIsCardinal(requests, summary);
    assert (set i | 0 <= i < |requests| && full(requests[i]))
        == (set i | 0 <= i < |requests| && requests[i].detail.Full?
                    && |requests[i].id| >= 8 && requests[i].id[..8] == "session:");
    assert (set i | 0 <= i < |requests| && summary(requests[i])) == (set i | 0 <= i < |requests| && requests[i].detail.Summary?);
  }
}
