// Session history, paged backwards from the newest event: a page holds at most `pageSize` events and
// is then trimmed, from its oldest end, to a byte bound; its token names its oldest event.
module HistoryPages {
  import opened Wrappers
  import opened Journal
  import JournalProofs

  const MAX_PAGE := 100
  const MAX_PAGE_BYTES := 700 * 1024

  datatype PageError = InvalidMessage | SessionNotFound

  // What a token is bound to; one that fails its signature never decodes to this.
  datatype PageToken = PageToken(sessionId: string, pageSize: int, beforeCursor: nat)

  datatype EventPage = EventPage(items: seq<StoredEvent>, next: Option<nat>)

  datatype HistoryPage = HistoryPage(items: seq<StoredEvent>, snapshotRevision: nat, next: Option<PageToken>)

  // The greatest cursor that a page may show.
  function Upper(s: Stream, before: Option<nat>): nat {
    if before.None? then s.current else if before.value == 0 then 0 else before.value - 1
  }

  // The events of a stream strictly below a cursor, oldest first; without a cursor, all of them.
  function Older(s: Stream, before: Option<nat>): seq<StoredEvent> {
    Select(s.events, 0, Upper(s, before))
  }

  function Suffix(rows: seq<StoredEvent>, n: nat): seq<StoredEvent>
    requires n <= |rows|
  {
    rows[|rows| - n..]
  }

  // SELECT ... ORDER BY cursor DESC LIMIT n, put back in order.
  function Last(rows: seq<StoredEvent>, n: nat): seq<StoredEvent> {
    if |rows| <= n then rows else Suffix(rows, n)
  }

  function PageEvents(s: Stream, pageSize: nat, before: Option<nat>): EventPage
    requires pageSize >= 1
  {
    var rows := Older(s, before);
    var items := Last(rows, pageSize);
    EventPage(items, if |rows| > pageSize then Some(items[0].cursor) else None)
  }

  // The bytes of the `n` newest rows.
  function Newest(rows: seq<StoredEvent>, size: StoredEvent -> nat, n: nat): nat
    requires n <= |rows|
  {
    if n == 0 then 0 else Newest(rows, size, n - 1) + size(rows[|rows| - n])
  }

  // Keeping the `n` newest rows keeps at least one, and as many as fit.
  ghost predicate TrimsTo(rows: seq<StoredEvent>, size: StoredEvent -> nat, n: nat) {
    && n <= |rows|
    && (rows != [] ==> n >= 1)
    && (n <= 1 || Newest(rows, size, n) <= MAX_PAGE_BYTES)
    && (n < |rows| ==> Newest(rows, size, n + 1) > MAX_PAGE_BYTES)
  }

  ghost predicate IsTrim(rows: seq<StoredEvent>, size: StoredEvent -> nat, kept: seq<StoredEvent>) {
    TrimsTo(rows, size, |kept|) && kept == Suffix(rows, |kept|)
  }

  lemma {:induction false} NewestGrows(rows: seq<StoredEvent>, size: StoredEvent -> nat, m: nat, n: nat)
    requires m <= n <= |rows|
    ensures Newest(rows, size, m) <= Newest(rows, size, n)
  {
    if m < n {
      NewestGrows(rows, size, m, n - 1);
    }
  }

  lemma {:induction false} NewestOfSuffix(rows: seq<StoredEvent>, size: StoredEvent -> nat, n: nat, k: nat)
    requires k <= n <= |rows|
    ensures Newest(Suffix(rows, n), size, k) == Newest(rows, size, k)
  {
    if k > 0 {
      NewestOfSuffix(rows, size, n, k - 1);
    }
  }

  // A page is as long as the bound allows: no other trim qualifies.
  lemma TrimUnique(rows: seq<StoredEvent>, size: StoredEvent -> nat, m: nat, n: nat)
    requires TrimsTo(rows, size, m) && TrimsTo(rows, size, n)
    ensures m == n
  {
    if m < n {
      NewestGrows(rows, size, m + 1, n);
    } else if n < m {
      NewestGrows(rows, size, n + 1, m);
    }
  }

  method Trim(candidates: seq<StoredEvent>, size: StoredEvent -> nat) returns (items: seq<StoredEvent>)
    ensures IsTrim(candidates, size, items)
  {
    var selectedNewestFirst: seq<StoredEvent> := [];
    var retainedBytes := 0;
    var index := |candidates|;
    items := [];
    while index > 0
      invariant 0 <= index <= |candidates| && |selectedNewestFirst| == |candidates| - index
      invariant Backwards(selectedNewestFirst) == candidates[index..]
      invariant retainedBytes == Newest(candidates, size, |candidates| - index)
      invariant |selectedNewestFirst| <= 1 || retainedBytes <= MAX_PAGE_BYTES
    {
      var candidate := candidates[index - 1];
      assert candidates[index - 1..][1..] == candidates[index..];
      if |selectedNewestFirst| > 0 && retainedBytes + size(candidate) > MAX_PAGE_BYTES { break; }
      BackwardsSnoc(selectedNewestFirst, candidate);
      selectedNewestFirst := selectedNewestFirst + [candidate];
      retainedBytes := retainedBytes + size(candidate);
      index := index - 1;
    }
    BackwardsLength(selectedNewestFirst);
    items := Backwards(selectedNewestFirst);
  }

  function Backwards<T>(s: seq<T>): seq<T> {
    if s == [] then [] else Backwards(s[1..]) + [s[0]]
  }

  lemma {:induction false} BackwardsLength<T>(s: seq<T>)
    ensures |Backwards(s)| == |s|
  {
    if s != [] {
      BackwardsLength(s[1..]);
    }
  }

  lemma {:induction false} BackwardsSnoc<T>(s: seq<T>, x: T)
    ensures Backwards(s + [x]) == [x] + Backwards(s)
  {
    if s == [] {
      assert [x][1..] == [];
    } else {
      BackwardsSnoc(s[1..], x);
      assert (s + [x])[1..] == s[1..] + [x];
    }
  }

  // ----- A page -----

  // The newest events below `before` with their token cursor: what one request shows.
  ghost predicate IsPage(s: Stream, size: StoredEvent -> nat, pageSize: nat, before: Option<nat>, page: EventPage)
  {
    var older := Older(s, before);
    && IsTrim(Last(older, pageSize), size, page.items)
    && page.next == if |page.items| < |older| && page.items != [] then Some(page.items[0].cursor) else None
  }

  method SessionHistoryPage(sessions: map<string, Stream>, size: StoredEvent -> nat, sessionId: string,
                            pageSize: int, token: Option<PageToken>)
    returns (r: Result<HistoryPage, PageError>)
    ensures r.Ok? <==> && 1 <= pageSize <= 100 && sessionId in sessions
                       && (token.Some? ==> token.value.sessionId == sessionId && token.value.pageSize == pageSize)
    ensures r == Err(SessionNotFound) <==> 1 <= pageSize <= 100 && sessionId !in sessions
    ensures r.Ok? ==> r.value.snapshotRevision == sessions[sessionId].current
    ensures r.Ok? && r.value.next.Some? ==>
              r.value.next.value.sessionId == sessionId && r.value.next.value.pageSize == pageSize
    ensures r.Ok? ==>
              var before := if token.Some? then Some(token.value.beforeCursor) else None;
              var next := if r.value.next.Some? then Some(r.value.next.value.beforeCursor) else None;
              IsPage(sessions[sessionId], size, pageSize, before, EventPage(r.value.items, next))
  {
    if !(1 <= pageSize <= MAX_PAGE) { return Err(InvalidMessage); }
    if sessionId !in sessions { return Err(SessionNotFound); }
    var beforeCursor: Option<nat> := None;
    if token.Some? {
      if token.value.sessionId != sessionId || token.value.pageSize != pageSize { return Err(InvalidMessage); }
      beforeCursor := Some(token.value.beforeCursor);
    }
    var page := TrimmedPage(sessions[sessionId], size, pageSize, beforeCursor);
    var next := if page.next.Some? then Some(PageToken(sessionId, pageSize, page.next.value)) else None;
    r := Ok(HistoryPage(page.items, sessions[sessionId].current, next));
  }

  // The rows of a page, trimmed, and the cursor of the oldest when anything is left.
  method TrimmedPage(s: Stream, size: StoredEvent -> nat, pageSize: nat, before: Option<nat>) returns (page: EventPage)
    requires pageSize >= 1
    ensures IsPage(s, size, pageSize, before, page)
  {
    var rows := PageEvents(s, pageSize, before);
    var items := Trim(rows.items, size);
    var trimmed := |items| < |rows.items|;
    page := EventPage(items, if (trimmed || rows.next.Some?) && items != [] then Some(items[0].cursor) else None);
  }

  lemma {:induction false} SelectSplits(events: map<nat, EventBody>, through: nat, k: nat)
    requires k < |Select(events, 0, through)|
    ensures 1 <= Select(events, 0, through)[k].cursor <= through
    ensures Select(events, 0, Select(events, 0, through)[k].cursor - 1) == Select(events, 0, through)[..k]
    decreases through
  {
    var rest := Select(events, 0, through - 1);
    if k < |rest| {
      SelectSplits(events, through - 1, k);
      assert Select(events, 0, through)[..k] == rest[..k];
    } else {
      assert Select(events, 0, through) == rest + [StoredEvent(through, events[through])];
      assert Select(events, 0, through)[..k] == rest;
    }
  }

  lemma SuffixOfLast(rows: seq<StoredEvent>, n: nat, k: nat)
    requires k <= |Last(rows, n)|
    ensures k <= |rows| && Suffix(Last(rows, n), k) == Suffix(rows, k)
  {
  }

  lemma TrimIsSuffix(rows: seq<StoredEvent>, size: StoredEvent -> nat, kept: seq<StoredEvent>)
    requires IsTrim(rows, size, kept)
    ensures |kept| <= |rows| && kept == Suffix(rows, |kept|) && (rows != [] ==> kept != [])
  {
  }

  // A trimmed page is a suffix of everything older.
  lemma PageIsSuffix(s: Stream, size: StoredEvent -> nat, pageSize: nat, before: Option<nat>, page: EventPage)
    requires IsPage(s, size, pageSize, before, page) && pageSize >= 1
    ensures |page.items| <= |Older(s, before)| && page.items == Suffix(Older(s, before), |page.items|)
    ensures Older(s, before) != [] ==> page.items != []
  {
    TrimIsSuffix(Last(Older(s, before), pageSize), size, page.items);
    SuffixOfLast(Older(s, before), pageSize, |page.items|);
  }

  lemma SuffixSplits(s: Stream, before: Option<nat>, items: seq<StoredEvent>, next: Option<nat>)
    requires |items| <= |Older(s, before)| && items == Suffix(Older(s, before), |items|)
    requires Older(s, before) != [] ==> items != []
    requires next == if |items| < |Older(s, before)| && items != [] then Some(items[0].cursor) else None
    ensures next.Some? ==> Older(s, before) == Older(s, next) + items && items != []
    ensures next.Some? ==> 1 <= next.value <= Upper(s, before)
    ensures next.None? ==> Older(s, before) == items
  {
    var older := Older(s, before);
    var k := |older| - |items|;
    if next.Some? {
      SelectSplits(s.events, Upper(s, before), k);
      assert items[0] == older[k];
      assert older == older[..k] + older[k..];
    }
  }

  // A page and what its token leaves make up everything that was asked for; no token, nothing left.
  lemma PageSplits(s: Stream, size: StoredEvent -> nat, pageSize: nat, before: Option<nat>, page: EventPage)
    requires IsPage(s, size, pageSize, before, page) && pageSize >= 1
    ensures page.next.Some? ==> Older(s, before) == Older(s, page.next) + page.items && page.items != []
    ensures page.next.Some? ==> 1 <= page.next.value <= Upper(s, before)
    ensures page.next.None? ==> Older(s, before) == page.items
  {
    PageIsSuffix(s, size, pageSize, before, page);
    SuffixSplits(s, before, page.items, page.next);
  }

  // The bytes of some events.
  function TotalSize(rows: seq<StoredEvent>, size: StoredEvent -> nat): nat {
    if rows == [] then 0 else size(rows[0]) + TotalSize(rows[1..], size)
  }

  lemma {:induction false} NewestIsTotal(rows: seq<StoredEvent>, size: StoredEvent -> nat, n: nat)
    requires n <= |rows|
    ensures Newest(rows, size, n) == TotalSize(Suffix(rows, n), size)
  {
    if n > 0 {
      NewestIsTotal(rows, size, n - 1);
      assert Suffix(rows, n)[0] == rows[|rows| - n] && Suffix(rows, n)[1..] == Suffix(rows, n - 1);
    }
  }

  // A page is within the byte bound or holds one event.
  lemma PageBounded(s: Stream, size: StoredEvent -> nat, pageSize: nat, before: Option<nat>, page: EventPage)
    requires IsPage(s, size, pageSize, before, page)
    ensures |page.items| <= pageSize && (|page.items| <= 1 || TotalSize(page.items, size) <= 716_800)
  {
    TrimFits(Last(Older(s, before), pageSize), size, page.items);
  }

  lemma TrimFits(rows: seq<StoredEvent>, size: StoredEvent -> nat, kept: seq<StoredEvent>)
    requires IsTrim(rows, size, kept)
    ensures |kept| <= |rows| && (|kept| <= 1 || TotalSize(kept, size) <= 716_800)
  {
    NewestIsTotal(rows, size, |kept|);
  }

  // A page is as full as it may be: it has the size asked for, or everything there is, or one event more
  // would pass 700 KiB.
  lemma PageIsFull(s: Stream, size: StoredEvent -> nat, pageSize: nat, before: Option<nat>, page: EventPage)
    requires IsPage(s, size, pageSize, before, page) && pageSize >= 1
    ensures |page.items| <= |Older(s, before)|
    ensures || |page.items| == pageSize || |page.items| == |Older(s, before)|
            || TotalSize(Suffix(Older(s, before), |page.items| + 1), size) > 716_800
    ensures page.next.Some? <==> |page.items| < |Older(s, before)|
  {
    PageIsSuffix(s, size, pageSize, before, page);
    TrimStops(Last(Older(s, before), pageSize), size, page.items);
    FullFrom(Older(s, before), size, pageSize, |page.items|);
  }

  lemma FullFrom(older: seq<StoredEvent>, size: StoredEvent -> nat, pageSize: nat, n: nat)
    requires n <= |Last(older, pageSize)|
    requires n < |Last(older, pageSize)| ==> TotalSize(Suffix(Last(older, pageSize), n + 1), size) > 716_800
    ensures n <= |older| && (n == pageSize || n == |older| || TotalSize(Suffix(older, n + 1), size) > 716_800)
  {
    if n < |Last(older, pageSize)| {
      SuffixOfLast(older, pageSize, n + 1);
    }
  }

  lemma TrimStops(rows: seq<StoredEvent>, size: StoredEvent -> nat, kept: seq<StoredEvent>)
    requires IsTrim(rows, size, kept)
    ensures |kept| <= |rows| && (|kept| < |rows| ==> TotalSize(Suffix(rows, |kept| + 1), size) > 716_800)
  {
    if |kept| < |rows| {
      NewestIsTotal(rows, size, |kept| + 1);
    }
  }

  // The events below a cursor are those that the stream keeps there, each once, oldest first.
  lemma OlderExactly(s: Stream, before: Option<nat>, e: StoredEvent)
    requires forall c: nat :: c in s.events ==> 1 <= c <= s.current
    ensures e in Older(s, before)
       <==> e.cursor in s.events && s.events[e.cursor] == e.body && (before.Some? ==> e.cursor < before.value)
    ensures forall i, j :: 0 <= i < j < |Older(s, before)| ==> Older(s, before)[i].cursor < Older(s, before)[j].cursor
  {
    JournalProofs.SelectExact(s.events, 0, Upper(s, before));
  }

  // ----- Walking all pages while the stream grows -----

  // Later states of a stream that is only appended to.
  ghost predicate Grows(first: Stream, later: Stream) {
    && first.current <= later.current
    && forall c: nat :: c <= first.current ==>
         (c in later.events <==> c in first.events) && (c in first.events ==> later.events[c] == first.events[c])
  }

  lemma {:induction false} SelectGrows(first: Stream, later: Stream, through: nat)
    requires Grows(first, later) && through <= first.current
    ensures Select(later.events, 0, through) == Select(first.events, 0, through)
    decreases through
  {
    if through > 0 {
      SelectGrows(first, later, through - 1);
    }
  }

  // A client that follows tokens: the answers it got, each from the stream as it was at that call.
  ghost predicate Walked(states: seq<Stream>, size: StoredEvent -> nat, pageSize: nat, before: Option<nat>,
        pages: seq<EventPage>)
  {
    && |states| == |pages| && pages != []
    && IsPage(states[0], size, pageSize, before, pages[0])
    && (if pages[0].next.None? then |pages| == 1
        else |pages| > 1 && Walked(states[1..], size, pageSize, pages[0].next, pages[1..]))
  }

  // The visited events, oldest first.
  function Visited(pages: seq<EventPage>): seq<StoredEvent> {
    if pages == [] then [] else Visited(pages[1..]) + pages[0].items
  }

  // Following the tokens to the end visits exactly what was there at the first call, each event once
  // and in order, whatever is appended between the calls.
  lemma {:induction false} WalkVisitsEverything(first: Stream, states: seq<Stream>, size: StoredEvent -> nat,
        pageSize: nat,
                                                before: Option<nat>, pages: seq<EventPage>)
    requires pageSize >= 1 && Walked(states, size, pageSize, before, pages)
    requires forall i :: 0 <= i < |states| ==> Grows(first, states[i])
    requires Upper(states[0], before) <= first.current
    ensures Visited(pages) == Select(first.events, 0, Upper(states[0], before))
    decreases |pages|, 1
  {
    PageSplits(states[0], size, pageSize, before, pages[0]);
    SelectGrows(first, states[0], Upper(states[0], before));
    if pages[0].next.Some? {
      WalkStep(first, states, size, pageSize, before, pages);
    } else {
      assert pages[1..] == [];
    }
  }

  lemma {:induction false} WalkStep(first: Stream, states: seq<Stream>, size: StoredEvent -> nat, pageSize: nat,
                                    before: Option<nat>, pages: seq<EventPage>)
    requires pageSize >= 1 && Walked(states, size, pageSize, before, pages)
    requires forall i :: 0 <= i < |states| ==> Grows(first, states[i])
    requires Upper(states[0], before) <= first.current && pages[0].next.Some?
    ensures Visited(pages[1..]) == Older(states[0], pages[0].next)
    decreases |pages|, 0
  {
    var next := pages[0].next;
    assert 1 <= next.value <= first.current by {
      PageSplits(states[0], size, pageSize, before, pages[0]);
    }
    forall i | 0 <= i < |states[1..]| ensures Grows(first, states[1..][i]) {
      assert states[1..][i] == states[i + 1];
    }
    WalkVisitsEverything(first, states[1..], size, pageSize, next, pages[1..]);
    SelectGrows(first, states[0], next.value - 1);
  }

  // Every page but the last shows something, so a finished walk made no more calls than it saw events,
  // and one.
  lemma {:induction false} WalkIsShort(states: seq<Stream>, size: StoredEvent -> nat, pageSize: nat,
        before: Option<nat>, pages: seq<EventPage>)
    requires pageSize >= 1 && Walked(states, size, pageSize, before, pages)
    ensures |pages| <= |Visited(pages)| + 1
    ensures Older(states[0], before) != [] || |pages| == 1
    decreases |pages|
  {
    PageSplits(states[0], size, pageSize, before, pages[0]);
    if pages[0].next.Some? {
      WalkIsShort(states[1..], size, pageSize, pages[0].next, pages[1..]);
    }
  }

  // A walk so far: every answer carried a token, and each call but the first used the one before it.
  ghost predicate Following(states: seq<Stream>, size: StoredEvent -> nat, pageSize: nat, before: Option<nat>,
        pages: seq<EventPage>)
  {
    && |states| == |pages|
    && (pages != [] ==>
          && IsPage(states[0], size, pageSize, before, pages[0]) && pages[0].next.Some?
          && Following(states[1..], size, pageSize, pages[0].next, pages[1..]))
  }

  // Every token lies below the one before it, whatever happens to the stream between the calls, so a
  // walk comes to a page without a token after at most as many calls as there are cursors below its start.
  lemma {:induction false} WalkMustEnd(states: seq<Stream>, size: StoredEvent -> nat, pageSize: nat,
        before: Option<nat>, pages: seq<EventPage>)
    requires pageSize >= 1 && pages != [] && Following(states, size, pageSize, before, pages)
    ensures |pages| <= Upper(states[0], before)
    decreases |pages|
  {
    PageSplits(states[0], size, pageSize, before, pages[0]);
    if |pages| > 1 {
      WalkMustEnd(states[1..], size, pageSize, pages[0].next, pages[1..]);
    }
  }

  // The stream at `n` calls from `call` on.
  function StatesFrom(states: nat -> Stream, call: nat, n: nat): (seen: seq<Stream>)
    ensures |seen| == n
    decreases n
  {
    if n == 0 then [] else [states(call)] + StatesFrom(states, call + 1, n - 1)
  }

  lemma WalkedOneMore(states: nat -> Stream, call: nat, size: StoredEvent -> nat, pageSize: nat, before: Option<nat>,
        page: EventPage, rest: seq<EventPage>)
    requires IsPage(states(call), size, pageSize, before, page) && page.next.Some?
    requires Walked(StatesFrom(states, call + 1, |rest|), size, pageSize, page.next, rest)
    ensures Walked(StatesFrom(states, call, |rest| + 1), size, pageSize, before, [page] + rest)
  {
    var seen, pages := StatesFrom(states, call, |rest| + 1), [page] + rest;
    assert seen[1..] == StatesFrom(states, call + 1, |rest|) && pages[1..] == rest;
  }

  // Following the tokens always ends: `states(k)` is the stream at call k, and nothing is asked of it.
  method FollowTokens(states: nat -> Stream, call: nat, size: StoredEvent -> nat, pageSize: nat, before: Option<nat>)
    returns (pages: seq<EventPage>)
    requires pageSize >= 1
    ensures Walked(StatesFrom(states, call, |pages|), size, pageSize, before, pages)
    decreases Upper(states(call), before)
  {
    var page := TrimmedPage(states(call), size, pageSize, before);
    PageSplits(states(call), size, pageSize, before, page);
    if page.next.None? {
      assert StatesFrom(states, call, 1) == [states(call)];
      return [page];
    }
    var rest := FollowTokens(states, call + 1, size, pageSize, page.next);
    WalkedOneMore(states, call, size, pageSize, before, page, rest);
    pages := [page] + rest;
  }

  // Without compaction a journal stream only grows, so the walk reads the whole retained history.
  lemma {:induction false} WalkReadsTheJournal(first: Stream, h: seq<EventBody>, states: seq<Stream>,
        size: StoredEvent -> nat, pageSize: nat,
                            pages: seq<EventPage>)
    requires pageSize >= 1 && Walked(states, size, pageSize, None, pages) && states[0] == first
    requires JournalProofs.Holds(first, h) && forall i :: 0 <= i < |states| ==> Grows(first, states[i])
    ensures Visited(pages) == JournalProofs.Numbered(h, first.floor, first.current)
  {
    WalkVisitsEverything(first, states, size, pageSize, None, pages);
    NothingBelowFloor(first, h, first.floor);
    SelectFromFloor(first, h, first.current);
    JournalProofs.SelectContiguous(first, h, first.floor, first.current);
  }

  lemma {:induction false} NothingBelowFloor(s: Stream, h: seq<EventBody>, through: nat)
    requires JournalProofs.Holds(s, h) && through <= s.floor
    ensures Select(s.events, 0, through) == []
    decreases through
  {
    if through > 0 {
      NothingBelowFloor(s, h, through - 1);
    }
  }

  lemma {:induction false} SelectFromFloor(s: Stream, h: seq<EventBody>, through: nat)
    requires JournalProofs.Holds(s, h) && s.floor <= through
    ensures Select(s.events, 0, through) == Select(s.events, s.floor, through)
    decreases through
  {
    if through == s.floor {
      NothingBelowFloor(s, h, through);
    } else {
      SelectFromFloor(s, h, through - 1);
    }
  }

  lemma StepGrows(first: Stream, t: Tables, op: Op, id: string)
    requires !op.Compact? && id in t.streams && Grows(first, t.streams[id])
    ensures id in Apply(t, op).streams && Grows(first, Apply(t, op).streams[id])
  {
  }

  // Any run without compaction grows every stream that it started with.
  lemma {:induction false} RunsGrow(ops: seq<Op>, more: seq<Op>, id: string)
    requires (forall op :: op in more ==> !op.Compact?) && id in Run(ops).streams
    ensures id in Run(ops + more).streams
    ensures Grows(Run(ops).streams[id], Run(ops + more).streams[id])
  {
    if more == [] {
      assert ops + more == ops;
    } else {
      var n := |more| - 1;
      RunsGrow(ops, more[..n], id);
      assert (ops + more)[..|ops + more| - 1] == ops + more[..n];
      assert more[n] in more;
      StepGrows(Run(ops).streams[id], Run(ops + more[..n]), more[n], id);
    }
  }
}
