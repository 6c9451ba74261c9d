// The client's continuity check: which events of a stream it applies.
module Tracker {
  import opened Wrappers
  import opened Journal
  import opened JournalProofs

  datatype ApplyResult = Applied | Duplicate | Gap | Conflicting

  datatype Position = Position(cursor: nat, events: map<nat, string>)

  const START := Position(0, map[])

  function PositionOf(streams: map<string, Position>, id: string): Position {
    if id in streams then streams[id] else START
  }

  function Judge(p: Position, cursor: nat, eventId: string): ApplyResult {
    if cursor in p.events && p.events[cursor] != "" then
      if p.events[cursor] == eventId then Duplicate else Conflicting
    else if cursor != p.cursor + 1 then Gap
    else Applied
  }

  function After(p: Position, cursor: nat, eventId: string): Position {
    if Judge(p, cursor, eventId).Applied? then Position(cursor, p.events[cursor := eventId]) else p
  }

  class StreamContinuityTracker {
    var streams: map<string, Position>

    constructor ()
      ensures streams == map[]
    {
      streams := map[];
    }

    method Apply(id: string, cursor: nat, eventId: string) returns (r: ApplyResult)
      modifies this
      ensures r == Judge(PositionOf(old(streams), id), cursor, eventId)
      ensures PositionOf(streams, id) == After(PositionOf(old(streams), id), cursor, eventId)
      ensures forall other :: other != id ==> PositionOf(streams, other) == PositionOf(old(streams), other)
    {
      var current := PositionOf(streams, id);
      if cursor in current.events && current.events[cursor] != "" {
        return if current.events[cursor] == eventId then Duplicate else Conflicting;
      }
      var expected := current.cursor + 1;
      if cursor != expected { return Gap; }
      streams := streams[id := Position(cursor, current.events[cursor := eventId])];
      r := Applied;
    }

    method Reset(id: string, cursor: nat)
      modifies this
      ensures PositionOf(streams, id) == Position(cursor, map[])
      ensures forall other :: other != id ==> PositionOf(streams, other) == PositionOf(old(streams), other)
    {
      streams := streams[id := Position(cursor, map[])];
    }
  }

  // ----- A feed of events for one stream -----

  function Feed(p: Position, events: seq<StoredEvent>): Position {
    if events == [] then p
    else
      var last := events[|events| - 1];
      After(Feed(p, events[..|events| - 1]), last.cursor, last.body.eventId)
  }

  // The events of a feed that were answered `applied`, in order.
  function AppliedOf(p: Position, events: seq<StoredEvent>): seq<StoredEvent> {
    if events == [] then []
    else
      var before, last := events[..|events| - 1], events[|events| - 1];
      var applied := Judge(Feed(p, before), last.cursor, last.body.eventId).Applied?;
      AppliedOf(p, before) + (if applied then [last] else [])
  }

  // A tracker that was reset to `base` and has since applied the journal up to its cursor.
  ghost predicate Tracks(p: Position, h: seq<EventBody>, base: nat) {
    && base <= p.cursor <= |h|
    && (forall c: nat :: c in p.events <==> base < c <= p.cursor)
    && (forall c: nat :: c in p.events ==> p.events[c] == h[c - 1].eventId)
  }

  ghost predicate Named(h: seq<EventBody>) {
    forall i :: 0 <= i < |h| ==> h[i].eventId != ""
  }

  // `events` are drawn from the journal `h`: lost, repeated or reordered at will.
  ghost predicate DrawnFrom(events: seq<StoredEvent>, h: seq<EventBody>) {
    forall e :: e in events ==> 1 <= e.cursor <= |h| && e.body == h[e.cursor - 1]
  }

  // What the tracker says of any one event, from the journal or forged.
  lemma JudgeExactly(p: Position, h: seq<EventBody>, base: nat, cursor: nat, eventId: string)
    requires Tracks(p, h, base) && Named(h)
    ensures var r := Judge(p, cursor, eventId);
            && (r.Applied? <==> cursor == p.cursor + 1)
            && (r.Duplicate? <==> base < cursor <= p.cursor && eventId == h[cursor - 1].eventId)
            && (r.Conflicting? <==> base < cursor <= p.cursor && eventId != h[cursor - 1].eventId)
            && (r.Gap? <==> cursor <= base || cursor > p.cursor + 1)
  {
  }

  // Whatever order the journal's events arrive in, what is applied is the journal's own segment
  // from the base to the tracker's cursor, and no event is called a conflict.
  lemma {:induction false} AppliedIsContiguous(p: Position, h: seq<EventBody>, events: seq<StoredEvent>)
    requires p.events == map[] && p.cursor <= |h| && Named(h) && DrawnFrom(events, h)
    ensures Tracks(Feed(p, events), h, p.cursor)
    ensures AppliedOf(p, events) == Numbered(h, p.cursor, Feed(p, events).cursor)
    ensures forall e :: e in events ==> !Judge(Feed(p, events), e.cursor, e.body.eventId).Conflicting?
  {
    if events != [] {
      var before, last := events[..|events| - 1], events[|events| - 1];
      AppliedIsContiguous(p, h, before);
      JudgeExactly(Feed(p, before), h, p.cursor, last.cursor, last.body.eventId);
    }
    assert forall e :: e in events ==> e.body.eventId == h[e.cursor - 1].eventId;
  }

  // Nothing is skipped: an in-order stretch from the tracker's own cursor is applied entirely.
  lemma {:induction false} InOrderIsApplied(p: Position, h: seq<EventBody>, base: nat, through: nat)
    requires Tracks(p, h, base) && p.cursor <= through <= |h|
    ensures AppliedOf(p, Numbered(h, p.cursor, through)) == Numbered(h, p.cursor, through)
    ensures Feed(p, Numbered(h, p.cursor, through)).cursor == through
    ensures Tracks(Feed(p, Numbered(h, p.cursor, through)), h, base)
    decreases through
  {
    if p.cursor < through {
      InOrderIsApplied(p, h, base, through - 1);
      var before, last := Numbered(h, p.cursor, through - 1), StoredEvent(through, h[through - 1]);
      assert Numbered(h, p.cursor, through) == before + [last];
      FedOneMore(p, before, last);
      NextIsApplied(Feed(p, before), h, base);
    }
  }

  lemma FedOneMore(p: Position, before: seq<StoredEvent>, last: StoredEvent)
    ensures Feed(p, before + [last]) == After(Feed(p, before), last.cursor, last.body.eventId)
    ensures AppliedOf(p, before + [last])
         == AppliedOf(p, before) + (if Judge(Feed(p, before), last.cursor, last.body.eventId).Applied? then [last] else [])
  {
    assert (before + [last])[..|before|] == before;
  }

  lemma NextIsApplied(p: Position, h: seq<EventBody>, base: nat)
    requires Tracks(p, h, base) && p.cursor < |h|
    ensures Judge(p, p.cursor + 1, h[p.cursor].eventId).Applied?
    ensures After(p, p.cursor + 1, h[p.cursor].eventId).cursor == p.cursor + 1
    ensures Tracks(After(p, p.cursor + 1, h[p.cursor].eventId), h, base)
  {
  }
}
