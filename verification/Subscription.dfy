// Subscribing a socket: the atomic sync of every requested stream, the buffer that holds events
// appended while the result is on its way, and the live tail.
module Subscription {
  import opened Wrappers
  import opened Journal
  import opened Snapshots
  import opened Unicode
  import opened Streams

  const MAX_JSON_BYTES := 1_048_576
  const MAX_SUMMARY_SUBSCRIPTIONS := 5

  const SUMMARY_EVENTS: set<string> := {
    "session.state", "session.metadata", "controller.state", "turn.started", "turn.waiting_for_input",
    "turn.settled", "turn.aborted", "turn.failed", "turn.indeterminate", "queue.snapshot",
    "command.state", "error.event"}

  datatype Detail = Full | Summary

  datatype Request = Request(id: string, detail: Detail, afterCursor: Option<string>)

  datatype LiveEvent = LiveEvent(id: string, event: StoredEvent)

  // `SnapshotFrames` stands for the begin, part and end frames of one snapshot.
  datatype Frame =
    | AcceptedFrame(streams: seq<(string, SyncMode)>)
    | StateFrame(id: string)
    | SnapshotFrames(id: string, baseline: nat)
    | EventFrame(live: LiveEvent)
    | CompleteFrame(id: string, currentCursor: nat, mode: SyncMode)
    | ErrorFrame(code: string)

  datatype SubscribeResult = SubscribeResult(accepted: seq<(string, SyncMode)>, messages: seq<Frame>)

  predicate IsSession(id: string) {
    |id| >= 8 && id[..8] == "session:"
  }

  predicate Shows(detail: Detail, event: StoredEvent) {
    detail.Full? || event.body.kind in SUMMARY_EVENTS
  }

  function CountIf(requests: seq<Request>, p: Request -> bool): nat {
    if requests == [] then 0
    else CountIf(requests[..|requests| - 1], p) + (if p(requests[|requests| - 1]) then 1 else 0)
  }

  predicate ValidSubscriptions(hostStreamId: string, requests: seq<Request>) {
    && (exists r :: r in requests && r.id == hostStreamId)
    && CountIf(requests, (r: Request) => r.detail.Full? && IsSession(r.id)) <= 1
    && CountIf(requests, (r: Request) => r.detail.Summary?) <= MAX_SUMMARY_SUBSCRIPTIONS
  }

  function EventFrames(id: string, detail: Detail, events: seq<StoredEvent>): seq<Frame> {
    if events == [] then []
    else
      var last := events[|events| - 1];
      var rest := EventFrames(id, detail, events[..|events| - 1]);
      if Shows(detail, last) then rest + [EventFrame(LiveEvent(id, last))] else rest
  }

  function Answer(request: Request, sync: StreamSync): seq<Frame> {
    (if sync.mode.Current? then [StateFrame(request.id)] else [])
    + (if sync.mode.SnapshotRequired? then [SnapshotFrames(request.id, sync.baseline.GetOr(0))] else [])
    + EventFrames(request.id, request.detail, sync.events)
    + [CompleteFrame(request.id, sync.currentCursor, sync.mode)]
  }

  function Refused(request: Request, visible: string -> bool): bool {
    IsSession(request.id) && !visible(request.id)
  }

  function SubscribeOf(t: Tables, requests: seq<Request>, visible: string -> bool): SubscribeResult {
    if requests == [] then SubscribeResult([], [])
    else
      var request := requests[|requests| - 1];
      var before := SubscribeOf(t, requests[..|requests| - 1], visible);
      if Refused(request, visible) then before.(messages := before.messages + [ErrorFrame("stream_not_found")])
      else match SyncOf(t, request.id, request.afterCursor)
        case Err(CursorInvalid) => before.(messages := before.messages + [ErrorFrame("cursor_invalid")])
        case Err(Store(_)) => before.(messages := before.messages + [ErrorFrame("stream_not_found")])
        case Ok(sync) =>
          SubscribeResult(before.accepted + [(request.id, sync.mode)], before.messages + Answer(request, sync))
  }

  class Runtime {
    const streams: StreamService
    const hostStreamId: string
    const visible: string -> bool

    constructor (streams: StreamService, hostStreamId: string, visible: string -> bool)
      ensures this.streams == streams && this.hostStreamId == hostStreamId && this.visible == visible
    {
      this.streams, this.hostStreamId, this.visible := streams, hostStreamId, visible;
    }

    // Synchronous, so every stream is synced at one state of the store.
    method Subscribe(requests: seq<Request>, state: string -> seq<CodePoint>)
      returns (r: Result<SubscribeResult, StoreError>)
      ensures r == if ValidSubscriptions(hostStreamId, requests)
                   then Ok(SubscribeOf(streams.store.Contents(), requests, visible)) else Err(StoreError.Conflict)
    {
      if !ValidSubscriptions(hostStreamId, requests) { return Err(StoreError.Conflict); }
      var accepted: seq<(string, SyncMode)>, messages: seq<Frame> := [], [];
      for i := 0 to |requests|
        invariant SubscribeResult(accepted, messages)
               == SubscribeOf(streams.store.Contents(), requests[..i], visible)
      {
        var request := requests[i];
        assert requests[..i + 1][..i] == requests[..i];
        if IsSession(request.id) && !visible(request.id) {
          messages := messages + [ErrorFrame("stream_not_found")];
          continue;
        }
        var sync, _ := streams.Sync(request.id, request.afterCursor, state(request.id));
        if sync.Err? {
          var code := if sync.error.CursorInvalid? then "cursor_invalid" else "stream_not_found";
          messages := messages + [ErrorFrame(code)];
          continue;
        }
        accepted := accepted + [(request.id, sync.value.mode)];
        messages := messages + Answer(request, sync.value);
      }
      assert requests[..|requests|] == requests;
      r := Ok(SubscribeResult(accepted, messages));
    }
  }

  // ----- The socket -----

  ghost predicate Collates(order: (string, string) -> bool) {
    && (forall a, b :: order(a, b) || order(b, a))
    && (forall a, b, c :: order(a, b) && order(b, c) ==> order(a, c))
  }

  // Any order of stream ids, such as that of localeCompare.
  type Collation = order: (string, string) -> bool | Collates(order) witness (a, b) => true

  // `collate` orders stream ids; `frameBytes` is the size of an event's frame.
  datatype Host = Host(collate: Collation, frameBytes: LiveEvent -> nat)

  datatype Socket = Socket(
    subscriptions: map<string, Detail>,
    syncing: bool,
    synchronized: bool,
    pending: seq<LiveEvent>,
    awaited: seq<Frame>,
    sent: seq<Frame>)

  function Details(requests: seq<Request>): map<string, Detail> {
    if requests == [] then map[]
    else
      var last := requests[|requests| - 1];
      Details(requests[..|requests| - 1])[last.id := last.detail]
  }

  // A frame above the protocol limit is replaced by an error frame.
  function Outbound(host: Host, frame: Frame): Frame {
    if frame.EventFrame? && host.frameBytes(frame.live) > MAX_JSON_BYTES then ErrorFrame("payload_too_large")
    else frame
  }

  function LiveFrames(host: Host, subscriptions: map<string, Detail>, live: LiveEvent): seq<Frame> {
    if live.id in subscriptions && Shows(subscriptions[live.id], live.event)
    then [Outbound(host, EventFrame(live))] else []
  }

  function LiveTail(host: Host, subscriptions: map<string, Detail>, events: seq<LiveEvent>): seq<Frame> {
    if events == [] then []
    else
      var last := events[|events| - 1];
      LiveTail(host, subscriptions, events[..|events| - 1]) + LiveFrames(host, subscriptions, last)
  }

  function OutboundAll(host: Host, frames: seq<Frame>): seq<Frame> {
    seq(|frames|, i requires 0 <= i < |frames| => Outbound(host, frames[i]))
  }

  function SentIds(messages: seq<Frame>): set<string> {
    set f | f in messages && f.EventFrame? :: f.live.event.body.eventId
  }

  function Unsent(events: seq<LiveEvent>, ids: set<string>): seq<LiveEvent> {
    if events == [] then []
    else
      var last := events[|events| - 1];
      var rest := Unsent(events[..|events| - 1], ids);
      if last.event.body.eventId in ids then rest else rest + [last]
  }

  predicate InOrder(host: Host, a: LiveEvent, b: LiveEvent) {
    host.collate(a.id, b.id) && (host.collate(b.id, a.id) ==> a.event.cursor <= b.event.cursor)
  }

  ghost predicate IsSortOf(host: Host, sorted: seq<LiveEvent>, input: seq<LiveEvent>) {
    && multiset(sorted) == multiset(input)
    && forall i, j :: 0 <= i < j < |sorted| ==> InOrder(host, sorted[i], sorted[j])
  }

  function Begin(s: Socket, requests: seq<Request>, result: SubscribeResult): Socket {
    s.(subscriptions := Details(requests), syncing := true, synchronized := false, pending := [],
       awaited := [AcceptedFrame(result.accepted)] + result.messages)
  }

  function OnEvent(host: Host, s: Socket, live: LiveEvent): Socket {
    if live.id !in s.subscriptions then s
    else if s.syncing then s.(pending := s.pending + [live])
    else if s.synchronized then s.(sent := s.sent + LiveFrames(host, s.subscriptions, live))
    else s
  }

  ghost predicate Flushed(host: Host, s: Socket, s': Socket) {
    exists sorted :: FlushedAs(host, s, s', sorted)
  }

  ghost predicate FlushedAs(host: Host, s: Socket, s': Socket, sorted: seq<LiveEvent>) {
    && IsSortOf(host, sorted, Unsent(s.pending, SentIds(s.awaited)))
    && s' == s.(syncing := false, synchronized := true, pending := [], awaited := [],
                sent := s.sent + OutboundAll(host, s.awaited) + LiveTail(host, s.subscriptions, sorted))
  }

  lemma InOrderTransitive(host: Host, a: LiveEvent, b: LiveEvent, c: LiveEvent)
    requires InOrder(host, a, b) && InOrder(host, b, c)
    ensures InOrder(host, a, c)
  {
  }

  lemma InsertAt(sorted: seq<LiveEvent>, event: LiveEvent, k: nat, i: nat)
    requires k <= |sorted| && i <= |sorted|
    ensures (sorted[..k] + [event] + sorted[k..])[i]
         == if i < k then sorted[i] else if i == k then event else sorted[i - 1]
    ensures multiset(sorted[..k] + [event] + sorted[k..]) == multiset(sorted) + multiset{event}
  {
    assert sorted == sorted[..k] + sorted[k..];
  }

  lemma InsertSorts(host: Host, sorted: seq<LiveEvent>, input: seq<LiveEvent>, event: LiveEvent, k: nat)
    requires IsSortOf(host, sorted, input) && k <= |sorted|
    requires k == 0 || InOrder(host, sorted[k - 1], event)
    requires forall j :: k <= j < |sorted| ==> InOrder(host, event, sorted[j])
    ensures IsSortOf(host, sorted[..k] + [event] + sorted[k..], input + [event])
  {
    var out := sorted[..k] + [event] + sorted[k..];
    InsertAt(sorted, event, k, 0);
    forall i, j | 0 <= i < j < |out| ensures InOrder(host, out[i], out[j]) {
      InsertAt(sorted, event, k, i);
      InsertAt(sorted, event, k, j);
      if j == k && i < k - 1 {
        InOrderTransitive(host, sorted[i], sorted[k - 1], event);
      }
    }
  }

  class SocketData {
    var subscriptions: map<string, Detail>
    var syncing: bool
    var synchronized: bool
    var pendingEvents: seq<LiveEvent>
    // The result that the subscription handler is awaiting.
    var awaited: seq<Frame>
    var sent: seq<Frame>
    const host: Host

    function Contents(): Socket
      reads this
    {
      Socket(subscriptions, syncing, synchronized, pendingEvents, awaited, sent)
    }

    constructor (host: Host)
      ensures Contents() == Socket(map[], false, false, [], [], []) && this.host == host
    {
      subscriptions, syncing, synchronized, pendingEvents, awaited, sent := map[], false, false, [], [], [];
      this.host := host;
    }

    method Send(frame: Frame)
      modifies this`sent
      ensures sent == old(sent) + [Outbound(host, frame)]
    {
      sent := sent + [Outbound(host, frame)];
    }

    method SendLiveEvent(live: LiveEvent)
      modifies this`sent
      ensures sent == old(sent) + LiveFrames(host, subscriptions, live)
    {
      if live.id !in subscriptions || !Shows(subscriptions[live.id], live.event) { return; }
      Send(EventFrame(live));
    }

    // The handler of subscription.set up to its await, which includes the whole of `Subscribe`.
    method BeginSubscription(runtime: Runtime, requests: seq<Request>, state: string -> seq<CodePoint>)
      returns (ok: bool)
      requires !syncing && pendingEvents == [] && awaited == []
      modifies this
      ensures ok == ValidSubscriptions(runtime.hostStreamId, requests)
      ensures Contents()
           == if ok then Begin(old(Contents()), requests,
                               SubscribeOf(runtime.streams.store.Contents(), requests, runtime.visible))
              else old(Contents())
    {
      var previous, previousSynchronized := subscriptions, synchronized;
      subscriptions, syncing, synchronized, pendingEvents := map[], true, false, [];
      for i := 0 to |requests|
        invariant subscriptions == Details(requests[..i])
        invariant syncing && !synchronized && pendingEvents == [] && awaited == [] && sent == old(sent)
      {
        assert requests[..i + 1][..i] == requests[..i];
        subscriptions := subscriptions[requests[i].id := requests[i].detail];
      }
      assert requests[..|requests|] == requests;
      var result := runtime.Subscribe(requests, state);
      if result.Err? {
        subscriptions, pendingEvents, syncing, synchronized := previous, [], false, previousSynchronized;
        return false;
      }
      awaited := [AcceptedFrame(result.value.accepted)] + result.value.messages;
      ok := true;
    }

    // The store's commit listener.
    method OnStoreEvent(live: LiveEvent)
      modifies this`pendingEvents, this`sent
      ensures Contents() == OnEvent(host, old(Contents()), live)
    {
      if live.id !in subscriptions { return; }
      if syncing {
        pendingEvents := pendingEvents + [live];
      } else if synchronized {
        SendLiveEvent(live);
      }
    }

    method SortPending(input: seq<LiveEvent>) returns (sorted: seq<LiveEvent>)
      ensures IsSortOf(host, sorted, input)
    {
      sorted := [];
      for i := 0 to |input|
        invariant IsSortOf(host, sorted, input[..i])
      {
        var event := input[i];
        var k := |sorted|;
        while k > 0 && !InOrder(host, sorted[k - 1], event)
          invariant 0 <= k <= |sorted|
          invariant forall j :: k <= j < |sorted| ==> InOrder(host, event, sorted[j])
        {
          k := k - 1;
        }
        InsertSorts(host, sorted, input[..i], event, k);
        assert input[..i + 1] == input[..i] + [event];
        sorted := sorted[..k] + [event] + sorted[k..];
      }
      assert input[..|input|] == input;
    }

    // The handler's continuation, after the await.
    method CompleteSubscription()
      requires syncing
      modifies this
      ensures Flushed(host, old(Contents()), Contents())
    {
      var messages := awaited;
      awaited := [];
      var sentIds := SentIds(messages);
      for i := 0 to |messages|
        invariant unchanged(`subscriptions, `pendingEvents, `syncing) && awaited == []
        invariant sent == old(sent) + OutboundAll(host, messages[..i])
      {
        Send(messages[i]);
        assert OutboundAll(host, messages[..i + 1]) == OutboundAll(host, messages[..i]) + [Outbound(host, messages[i])];
      }
      assert messages[..|messages|] == messages;
      synchronized := true;
      var unsent := Unsent(pendingEvents, sentIds);
      var sorted := SortPending(unsent);
      pendingEvents, syncing := [], false;
      ghost var replayed := sent;
      for i := 0 to |sorted|
        invariant unchanged(`subscriptions) && awaited == [] && pendingEvents == [] && !syncing && synchronized
        invariant sent == replayed + LiveTail(host, subscriptions, sorted[..i])
      {
        assert sorted[..i + 1][..i] == sorted[..i];
        SendLiveEvent(sorted[i]);
      }
      assert sorted[..|sorted|] == sorted;
      assert FlushedAs(host, old(Contents()), Contents(), sorted);
    }
  }
}
