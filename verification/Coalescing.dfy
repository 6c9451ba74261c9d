// Notification coalescing: a state per (device, session), a count per (device, minute), and the sweep
// that forgets both.
module Coalescing {
  import opened Wrappers

  type SessionKey = (string, string)

  // A device and a minute bucket.
  type MinuteKey = (string, int)

  datatype CoalesceState = CoalesceState(
    lastKind: Option<string>, lastNotificationId: Option<string>, count: int, firstAt: int, lastAt: int)

  datatype Limits = Limits(minIntervalMs: int, perMinuteCeiling: nat, sessionCeiling: nat)

  datatype Reason = First | Repeat | RateLimited | SessionCeiling | PerDeviceCeiling

  datatype Event = Event(deviceId: string, sessionId: string, kind: string, notificationId: string, now: int) {
    function Session(): SessionKey {
      (deviceId, sessionId)
    }

    function Minute(): MinuteKey {
      (deviceId, now / 60_000)
    }
  }

  datatype State = State(perKey: map<SessionKey, CoalesceState>, perDeviceMinute: map<MinuteKey, nat>)

  const EMPTY := State(map[], map[])

  const MAX_KEYS := 10_000

  function Get<K, V>(m: map<K, V>, key: K, default: V): V {
    if key in m then m[key] else default
  }

  // Why an event is emitted or not, given the state the caller passes for its session.
  function ReasonFor(limits: Limits, minuteCount: nat, previous: Option<CoalesceState>, kind: string,
        now: int): Reason {
    match previous
    case None => if minuteCount >= limits.perMinuteCeiling then PerDeviceCeiling else First
    case Some(p) =>
      if p.count >= limits.sessionCeiling then SessionCeiling
      else if p.lastKind == Some(kind) && now - p.lastAt < limits.minIntervalMs then RateLimited
      else if minuteCount >= limits.perMinuteCeiling then PerDeviceCeiling
      else Repeat
  }

  predicate Emits(reason: Reason) {
    reason.First? || reason.Repeat?
  }

  function NextState(reason: Reason, previous: Option<CoalesceState>, e: Event): CoalesceState
    requires reason.Repeat? || reason.RateLimited? ==> previous.Some?
  {
    match reason
    case Repeat =>
      CoalesceState(Some(e.kind), Some(e.notificationId), previous.value.count + 1, previous.value.firstAt, e.now)
    case RateLimited => previous.value.(count := previous.value.count + 1, lastAt := e.now)
    case _ => CoalesceState(Some(e.kind), Some(e.notificationId), 1, e.now, e.now)
  }

  function Decided(limits: Limits, st: State, e: Event, previous: Option<CoalesceState>): (State, Reason) {
    var count := Get(st.perDeviceMinute, e.Minute(), 0);
    var reason := ReasonFor(limits, count, previous, e.kind, e.now);
    var minutes := if Emits(reason) then st.perDeviceMinute[e.Minute() := count + 1] else st.perDeviceMinute;
    var keys := if Emits(reason) || reason.RateLimited? then st.perKey[e.Session() := NextState(reason, previous, e)]
                else st.perKey;
    (State(keys, minutes), reason)
  }

  function Restricted(m: map<SessionKey, CoalesceState>, keys: set<SessionKey>): map<SessionKey, CoalesceState> {
    map k | k in m && k in keys :: m[k]
  }

  // No state outside `kept` is younger than one inside.
  ghost predicate Youngest(before: map<SessionKey, CoalesceState>, kept: set<SessionKey>) {
    kept <= before.Keys
    && forall k, gone :: k in kept && gone in before && gone !in kept ==> before[gone].lastAt <= before[k].lastAt
  }

  ghost predicate Capped(before: map<SessionKey, CoalesceState>, kept: set<SessionKey>) {
    Youngest(before, kept) && |kept| <= MAX_KEYS && (kept != before.Keys ==> |kept| == MAX_KEYS)
  }

  // What a sweep may leave of the session states: nothing stale, at most the cap, the youngest.
  ghost predicate Swept(before: map<SessionKey, CoalesceState>, kept: set<SessionKey>, cutoff: int) {
    && Youngest(before, kept) && |kept| <= MAX_KEYS
    && (forall k :: k in kept ==> before[k].lastAt >= cutoff)
    && ((exists k :: k in before && k !in kept && before[k].lastAt >= cutoff) ==> |kept| == MAX_KEYS)
  }

  lemma SweptInTwo(before: map<SessionKey, CoalesceState>, young: set<SessionKey>, kept: set<SessionKey>, cutoff: int)
    requires young == set k | k in before && before[k].lastAt >= cutoff
    requires Capped(Restricted(before, young), kept)
    ensures Swept(before, kept, cutoff)
  {
    assert Restricted(before, young).Keys == young;
  }

  function SweptMinutes(minutes: map<MinuteKey, nat>, now: int, retentionMs: int): map<MinuteKey, nat> {
    map k | k in minutes && k.1 >= (now - retentionMs) / 60_000 :: minutes[k]
  }

  class Coalescer {
    const limits: Limits
    var perKey: map<SessionKey, CoalesceState>
    var perDeviceMinute: map<MinuteKey, nat>

    function Contents(): State
      reads this
    {
      State(perKey, perDeviceMinute)
    }

    constructor (limits: Limits)
      ensures Contents() == EMPTY && this.limits == limits
    {
      this.limits := limits;
      perKey, perDeviceMinute := map[], map[];
    }

    method Decide(e: Event, previous: Option<CoalesceState>)
      returns (reason: Reason, replaced: Option<string>, next: CoalesceState)
      modifies this
      ensures (Contents(), reason) == Decided(limits, old(Contents()), e, previous)
      ensures replaced == if reason.RateLimited? then previous.value.lastNotificationId else None
      ensures next == if Emits(reason) || reason.RateLimited? then perKey[e.Session()]
                      else if previous.Some? then previous.value else CoalesceState(None, None, 0, e.now, e.now)
    {
      var perDeviceCount := Get(perDeviceMinute, e.Minute(), 0);
      if previous.None? {
        if perDeviceCount >= limits.perMinuteCeiling {
          return PerDeviceCeiling, None, CoalesceState(None, None, 0, e.now, e.now);
        }
        next := CoalesceState(Some(e.kind), Some(e.notificationId), 1, e.now, e.now);
        perKey := perKey[e.Session() := next];
        perDeviceMinute := perDeviceMinute[e.Minute() := perDeviceCount + 1];
        return First, None, next;
      }
      var p := previous.value;
      if p.count >= limits.sessionCeiling { return SessionCeiling, None, p; }
      if p.lastKind == Some(e.kind) && e.now - p.lastAt < limits.minIntervalMs {
        next := p.(count := p.count + 1, lastAt := e.now);
        perKey := perKey[e.Session() := next];
        return RateLimited, p.lastNotificationId, next;
      }
      if perDeviceCount >= limits.perMinuteCeiling { return PerDeviceCeiling, None, p; }
      next := CoalesceState(Some(e.kind), Some(e.notificationId), p.count + 1, p.firstAt, e.now);
      perKey := perKey[e.Session() := next];
      perDeviceMinute := perDeviceMinute[e.Minute() := perDeviceCount + 1];
      return Repeat, None, next;
    }

    method Snapshot(deviceId: string, sessionId: string) returns (state: Option<CoalesceState>)
      ensures state == if (deviceId, sessionId) in perKey then Some(perKey[(deviceId, sessionId)]) else None
    {
      state := if (deviceId, sessionId) in perKey then Some(perKey[(deviceId, sessionId)]) else None;
    }

    method Drop(deviceId: string, sessionId: string)
      modifies this`perKey
      ensures perKey == old(perKey) - {(deviceId, sessionId)}
    {
      perKey := perKey - {(deviceId, sessionId)};
    }

    // Which of several equally old states goes first depends on insertion order and is left open.
    method Sweep(now: int, retentionMs: int) returns (dropped: nat)
      modifies this
      ensures perKey == Restricted(old(perKey), perKey.Keys)
      ensures Swept(old(perKey), perKey.Keys, now - retentionMs)
      ensures perDeviceMinute == SweptMinutes(old(perDeviceMinute), now, retentionMs)
      ensures dropped == |old(perKey)| - |perKey| + |old(perDeviceMinute)| - |perDeviceMinute|
    {
      var stale := DropStale(now - retentionMs);
      ghost var young := perKey.Keys;
      var evicted := Evict();
      SweptInTwo(old(perKey), young, perKey.Keys, now - retentionMs);
      var gone := DropMinutes(now, retentionMs);
      dropped := stale + evicted + gone;
    }

    method DropStale(cutoff: int) returns (dropped: nat)
      modifies this`perKey
      ensures perKey == Restricted(old(perKey), set k | k in old(perKey) && old(perKey)[k].lastAt >= cutoff)
      ensures dropped == |old(perKey)| - |perKey|
    {
      ghost var before := perKey;
      var stale := set k | k in perKey && perKey[k].lastAt < cutoff;
      perKey := perKey - stale;
      assert perKey.Keys == before.Keys - stale;
      dropped := |stale|;
    }

    method DropMinutes(now: int, retentionMs: int) returns (dropped: nat)
      modifies this`perDeviceMinute
      ensures perDeviceMinute == SweptMinutes(old(perDeviceMinute), now, retentionMs)
      ensures dropped == |old(perDeviceMinute)| - |perDeviceMinute|
    {
      var gone := set k | k in perDeviceMinute && k.1 < (now - retentionMs) / 60_000;
      assert SweptMinutes(perDeviceMinute, now, retentionMs).Keys == perDeviceMinute.Keys - gone;
      perDeviceMinute := map k | k in perDeviceMinute && k !in gone :: perDeviceMinute[k];
      dropped := |gone|;
    }

    // The states above the cap go, oldest first.
    method Evict() returns (evicted: nat)
      modifies this`perKey
      ensures perKey == Restricted(old(perKey), perKey.Keys) && evicted == |old(perKey)| - |perKey|
      ensures Capped(old(perKey), perKey.Keys)
    {
      ghost var before := perKey;
      evicted := 0;
      while |perKey| > MAX_KEYS
        invariant perKey == Restricted(before, perKey.Keys) && evicted == |before| - |perKey|
        invariant Youngest(before, perKey.Keys) && (perKey != before ==> |perKey| >= MAX_KEYS)
        decreases |perKey|
      {
        var oldest := Oldest();
        ghost var kept := perKey;
        perKey := perKey - {oldest};
        assert perKey.Keys == kept.Keys - {oldest};
        evicted := evicted + 1;
      }
    }

    method Oldest() returns (oldest: SessionKey)
      requires |perKey| > 0
      ensures oldest in perKey && forall k :: k in perKey ==> perKey[oldest].lastAt <= perKey[k].lastAt
    {
      assert perKey.Keys != {};
      oldest :| oldest in perKey;
      var rest := perKey.Keys;
      while rest != {}
        invariant rest <= perKey.Keys && oldest in perKey
        invariant forall k :: k in perKey && k !in rest ==> perKey[oldest].lastAt <= perKey[k].lastAt
        decreases rest
      {
        var k :| k in rest;
        if perKey[k].lastAt < perKey[oldest].lastAt { oldest := k; }
        rest := rest - {k};
      }
    }
  }

  // ----- Runs -----

  datatype Op =
    | Decide(e: Event, previous: Option<CoalesceState>)
    | Drop(key: SessionKey)
    | Sweep(now: int, retentionMs: int, kept: set<SessionKey>)

  function Apply(limits: Limits, st: State, op: Op): State {
    match op
    case Decide(e, previous) => Decided(limits, st, e, previous).0
    case Drop(key) => st.(perKey := st.perKey - {key})
    case Sweep(now, retentionMs, kept) =>
      State(Restricted(st.perKey, kept), SweptMinutes(st.perDeviceMinute, now, retentionMs))
  }

  function Run(limits: Limits, ops: seq<Op>): State {
    if ops == [] then EMPTY else Apply(limits, Run(limits, ops[..|ops| - 1]), ops[|ops| - 1])
  }

  predicate EmitsLast(limits: Limits, ops: seq<Op>)
    requires ops != [] && ops[|ops| - 1].Decide?
  {
    var op := ops[|ops| - 1];
    Emits(Decided(limits, Run(limits, ops[..|ops| - 1]), op.e, op.previous).1)
  }

  // The notifications a run emitted to one device with times in [from, to).
  function Emitted(limits: Limits, ops: seq<Op>, deviceId: string, from: int, to: int): nat {
    if ops == [] then 0
    else
      var op := ops[|ops| - 1];
      var rest := Emitted(limits, ops[..|ops| - 1], deviceId, from, to);
      if op.Decide? && op.e.deviceId == deviceId && from <= op.e.now < to && EmitsLast(limits, ops)
      then rest + 1 else rest
  }

  // The time of an operation; a drop has none of its own.
  function TimeOf(op: Op, last: int): int {
    match op case Decide(e, _) => e.now case Drop(_) => last case Sweep(now, _, _) => now
  }

  // The clock after a run that starts at `start`.
  function Clock(start: int, ops: seq<Op>): int {
    if ops == [] then start else TimeOf(ops[|ops| - 1], Clock(start, ops[..|ops| - 1]))
  }

  // Times do not decrease, and no sweep keeps less than nothing.
  ghost predicate Timely(start: int, ops: seq<Op>) {
    ops == [] || (
      var before := ops[..|ops| - 1];
      var op := ops[|ops| - 1];
      Timely(start, before) && Clock(start, before) <= TimeOf(op, Clock(start, before)) && (op.Sweep? ==> op.retentionMs >= 0))
  }

  // ----- The ceiling per minute -----

  // Every bucket that can still be counted into tells exactly how many notifications went into it,
  // swept or not; and no bucket, past or present, has seen more than the ceiling.
  ghost predicate Counted(limits: Limits, ops: seq<Op>, start: int, deviceId: string, bucket: int) {
    var emitted := Emitted(limits, ops, deviceId, bucket * 60_000, bucket * 60_000 + 60_000);
    && emitted <= limits.perMinuteCeiling
    && (bucket >= Clock(start, ops) / 60_000 ==>
          emitted == Get(Run(limits, ops).perDeviceMinute, (deviceId, bucket), 0))
  }

  lemma BucketOf(now: int, bucket: int)
    ensures now / 60_000 == bucket <==> bucket * 60_000 <= now < bucket * 60_000 + 60_000
  {
  }

  lemma SweepKeepsLive(minutes: map<MinuteKey, nat>, now: int, retentionMs: int, key: MinuteKey)
    requires retentionMs >= 0 && key.1 >= now / 60_000
    ensures Get(SweptMinutes(minutes, now, retentionMs), key, 0) == Get(minutes, key, 0)
  {
    assert (now - retentionMs) / 60_000 <= now / 60_000;
  }

  lemma DecideCounts(limits: Limits, ops: seq<Op>, start: int, deviceId: string, bucket: int)
    requires ops != [] && ops[|ops| - 1].Decide? && Timely(start, ops)
    requires Counted(limits, ops[..|ops| - 1], start, deviceId, bucket)
    ensures Counted(limits, ops, start, deviceId, bucket)
  {
    var before := ops[..|ops| - 1];
    var e := ops[|ops| - 1].e;
    BucketOf(e.now, bucket);
    assert Clock(start, before) / 60_000 <= e.now / 60_000;
  }

  lemma {:induction false} EveryMinuteIsCounted(limits: Limits, ops: seq<Op>, start: int, deviceId: string, bucket: int)
    requires Timely(start, ops)
    ensures Counted(limits, ops, start, deviceId, bucket)
  {
    if ops != [] {
      var before := ops[..|ops| - 1];
      EveryMinuteIsCounted(limits, before, start, deviceId, bucket);
      match ops[|ops| - 1]
      case Decide(_, _) => DecideCounts(limits, ops, start, deviceId, bucket);
      case Drop(_) =>
      case Sweep(now, retentionMs, _) =>
        assert Clock(start, before) / 60_000 <= now / 60_000;
        if bucket >= now / 60_000 {
          SweepKeepsLive(Run(limits, before).perDeviceMinute, now, retentionMs, (deviceId, bucket));
        }
    }
  }

  lemma {:induction false} EmittedSplits(limits: Limits, ops: seq<Op>, deviceId: string, from: int, mid: int, to: int)
    requires from <= mid <= to
    ensures Emitted(limits, ops, deviceId, from, to)
         == Emitted(limits, ops, deviceId, from, mid) + Emitted(limits, ops, deviceId, mid, to)
  {
    if ops != [] {
      EmittedSplits(limits, ops[..|ops| - 1], deviceId, from, mid, to);
    }
  }

  // A device gets at most twice the ceiling in any 60 seconds, and at most the ceiling when they are
  // the seconds of one minute; whatever states the callers pass in.
  lemma AtMostTwiceTheCeiling(limits: Limits, ops: seq<Op>, start: int, deviceId: string, from: int)
    requires Timely(start, ops)
    ensures Emitted(limits, ops, deviceId, from, from + 60_000) <= 2 * limits.perMinuteCeiling
    ensures from % 60_000 == 0 ==> Emitted(limits, ops, deviceId, from, from + 60_000) <= limits.perMinuteCeiling
  {
    var bucket := from / 60_000;
    var low, mid, high := bucket * 60_000, bucket * 60_000 + 60_000, bucket * 60_000 + 120_000;
    EveryMinuteIsCounted(limits, ops, start, deviceId, bucket);
    EveryMinuteIsCounted(limits, ops, start, deviceId, bucket + 1);
    EmittedSplits(limits, ops, deviceId, low, from, mid);
    EmittedSplits(limits, ops, deviceId, from, mid, from + 60_000);
    EmittedSplits(limits, ops, deviceId, mid, from + 60_000, high);
  }

  // An event is refused for the device's sake exactly when its minute is full and nothing about its
  // session refuses it first.
  lemma RefusedForTheMinuteExactly(limits: Limits, ops: seq<Op>, start: int, e: Event, previous: Option<CoalesceState>)
    requires Timely(start, ops) && Clock(start, ops) <= e.now
    ensures var minute := e.now / 60_000 * 60_000;
            Decided(limits, Run(limits, ops), e, previous).1.PerDeviceCeiling?
            <==> Emitted(limits, ops, e.deviceId, minute, minute + 60_000) == limits.perMinuteCeiling
                 && (previous.Some? ==> previous.value.count < limits.sessionCeiling
                                        && (previous.value.lastKind != Some(e.kind)
                                            || e.now - previous.value.lastAt >= limits.minIntervalMs))
  {
    EveryMinuteIsCounted(limits, ops, start, e.deviceId, e.now / 60_000);
    assert Clock(start, ops) / 60_000 <= e.now / 60_000;
  }

  // ----- The ceiling per session -----

  // The caller passes what the coalescer itself remembers, as the notification service does.
  ghost predicate Faithful(limits: Limits, ops: seq<Op>) {
    ops == [] || (
      var op := ops[|ops| - 1];
      var st := Run(limits, ops[..|ops| - 1]);
      && Faithful(limits, ops[..|ops| - 1])
      && (op.Decide? ==> op.previous == if op.e.Session() in st.perKey then Some(st.perKey[op.e.Session()]) else None))
  }

  // The notifications emitted for a session since its state was last dropped or swept away.
  function SinceForgotten(limits: Limits, ops: seq<Op>, key: SessionKey): nat {
    if ops == [] then 0
    else
      var op := ops[|ops| - 1];
      var rest := SinceForgotten(limits, ops[..|ops| - 1], key);
      match op
      case Decide(e, _) => if e.Session() == key && EmitsLast(limits, ops) then rest + 1 else rest
      case Drop(k) => if k == key then 0 else rest
      case Sweep(_, _, kept) => if key in kept then rest else 0
  }

  ghost predicate SessionCounted(limits: Limits, st: State, since: nat, key: SessionKey) {
    && (key in st.perKey ==> since <= st.perKey[key].count <= if limits.sessionCeiling > 1 then limits.sessionCeiling else 1)
    && (key !in st.perKey ==> since == 0)
  }

  // While a session's state is remembered it counts every notification emitted, so the ceiling holds
  // from one forgetting to the next. It does not hold for the life of the session.
  lemma {:induction false} SessionCeilingHolds(limits: Limits, ops: seq<Op>, key: SessionKey)
    requires Faithful(limits, ops)
    ensures SessionCounted(limits, Run(limits, ops), SinceForgotten(limits, ops, key), key)
    ensures SinceForgotten(limits, ops, key) <= if limits.sessionCeiling > 1 then limits.sessionCeiling else 1
  {
    if ops != [] {
      SessionCeilingHolds(limits, ops[..|ops| - 1], key);
    }
  }

  // ----- The distance between repeats -----

  // The last event emitted for a session since its state was last forgotten.
  function LastEmitted(limits: Limits, ops: seq<Op>, key: SessionKey): Option<Event> {
    if ops == [] then None
    else
      var op := ops[|ops| - 1];
      var rest := LastEmitted(limits, ops[..|ops| - 1], key);
      match op
      case Decide(e, _) => if e.Session() == key && EmitsLast(limits, ops) then Some(e) else rest
      case Drop(k) => if k == key then None else rest
      case Sweep(_, _, kept) => if key in kept then rest else None
  }

  // What is remembered of a session is the notification last shown, at its time or later.
  ghost predicate RemembersLast(st: State, last: Option<Event>, key: SessionKey) {
    && (key in st.perKey <==> last.Some?)
    && (last.Some? ==>
          && st.perKey[key].lastKind == Some(last.value.kind)
          && st.perKey[key].lastNotificationId == Some(last.value.notificationId)
          && st.perKey[key].lastAt >= last.value.now)
  }

  lemma {:induction false} LastIsRemembered(limits: Limits, ops: seq<Op>, start: int, key: SessionKey)
    requires Faithful(limits, ops) && Timely(start, ops)
    ensures RemembersLast(Run(limits, ops), LastEmitted(limits, ops, key), key)
    ensures LastEmitted(limits, ops, key).Some? ==> LastEmitted(limits, ops, key).value.now <= Clock(start, ops)
  {
    if ops != [] {
      LastIsRemembered(limits, ops[..|ops| - 1], start, key);
    }
  }

  // While a session is remembered, a notification of the kind last shown is shown again only after
  // the minimum interval; one held back names the notification that is on show.
  lemma {:induction false} RepeatsKeepTheirDistance(limits: Limits, ops: seq<Op>, start: int, e: Event)
    requires Faithful(limits, ops) && Timely(start, ops) && Clock(start, ops) <= e.now
    requires LastEmitted(limits, ops, e.Session()).Some?
    ensures var st := Run(limits, ops);
            var last := LastEmitted(limits, ops, e.Session()).value;
            var previous := if e.Session() in st.perKey then Some(st.perKey[e.Session()]) else None;
            var reason := Decided(limits, st, e, previous).1;
            && (Emits(reason) && last.kind == e.kind ==> e.now - last.now >= limits.minIntervalMs)
            && (reason.RateLimited? ==> last.kind == e.kind && previous.value.lastNotificationId == Some(last.notificationId))
  {
    LastIsRemembered(limits, ops, start, e.Session());
  }

  // ----- The ceiling over the life of a session -----

  // The ceiling as it acts: the first notification is never refused for it.
  function Ceiling(limits: Limits): nat {
    if limits.sessionCeiling > 1 then limits.sessionCeiling else 1
  }

  // Every notification ever emitted for a session.
  function Total(limits: Limits, ops: seq<Op>, key: SessionKey): nat {
    if ops == [] then 0
    else
      var op := ops[|ops| - 1];
      var rest := Total(limits, ops[..|ops| - 1], key);
      if op.Decide? && op.e.Session() == key && EmitsLast(limits, ops) then rest + 1 else rest
  }

  function Remembered(st: State, key: SessionKey): Option<CoalesceState> {
    if key in st.perKey then Some(st.perKey[key]) else None
  }

  // An event is shown: its device has room in the minute, and its session is unknown, or is known with
  // room in its count and not held to the interval.
  predicate Shows(limits: Limits, ops: seq<Op>, e: Event) {
    var known := Remembered(Run(limits, ops), e.Session());
    var minute := e.now / 60_000 * 60_000;
    && Emitted(limits, ops, e.deviceId, minute, minute + 60_000) < limits.perMinuteCeiling
    && (known.Some? ==>
          && known.value.count < limits.sessionCeiling
          && (known.value.lastKind != Some(e.kind) || e.now - known.value.lastAt >= limits.minIntervalMs))
  }

  lemma ShownExactly(limits: Limits, ops: seq<Op>, start: int, e: Event)
    requires Timely(start, ops) && Clock(start, ops) <= e.now
    ensures Emits(Decided(limits, Run(limits, ops), e, Remembered(Run(limits, ops), e.Session())).1) <==> Shows(limits, ops, e)
  {
    EveryMinuteIsCounted(limits, ops, start, e.deviceId, e.now / 60_000);
    assert Clock(start, ops) / 60_000 <= e.now / 60_000;
  }

  // Some event of the session was shown when the ceiling had been reached already: its state had been
  // forgotten, so it was unknown or remembered with a count that had started again.
  ghost predicate ShownAtCeiling(limits: Limits, ops: seq<Op>, key: SessionKey) {
    ops != [] && (
      var before, op := ops[..|ops| - 1], ops[|ops| - 1];
      || ShownAtCeiling(limits, before, key)
      || (op.Decide? && op.e.Session() == key && Total(limits, before, key) == Ceiling(limits) && Shows(limits, before, op.e)))
  }

  lemma {:induction false} TotalGrowsByShowing(limits: Limits, ops: seq<Op>, start: int, key: SessionKey)
    requires ops != [] && Faithful(limits, ops) && Timely(start, ops)
    ensures var before, op := ops[..|ops| - 1], ops[|ops| - 1];
            Total(limits, ops, key)
            == Total(limits, before, key) + if op.Decide? && op.e.Session() == key && Shows(limits, before, op.e) then 1 else 0
  {
    var before, op := ops[..|ops| - 1], ops[|ops| - 1];
    if op.Decide? {
      assert op.previous == Remembered(Run(limits, before), op.e.Session());
      ShownExactly(limits, before, start, op.e);
    }
  }

  // Over every run the ceiling fails for the life of a session if and only if one of its events is
  // shown with the ceiling reached and its state forgotten.
  lemma {:induction false} LifetimeCeilingFailsExactly(limits: Limits, ops: seq<Op>, start: int, key: SessionKey)
    requires Faithful(limits, ops) && Timely(start, ops)
    ensures Total(limits, ops, key) > Ceiling(limits) <==> ShownAtCeiling(limits, ops, key)
  {
    if ops != [] {
      LifetimeCeilingFailsExactly(limits, ops[..|ops| - 1], start, key);
      TotalGrowsByShowing(limits, ops, start, key);
    }
  }

  // No drop and no sweep of the run forgets the session while it is remembered.
  ghost predicate NeverForgotten(limits: Limits, ops: seq<Op>, key: SessionKey) {
    ops == [] || (
      var before, op := ops[..|ops| - 1], ops[|ops| - 1];
      && NeverForgotten(limits, before, key)
      && (key in Run(limits, before).perKey ==>
            (op.Drop? ==> op.key != key) && (op.Sweep? ==> key in op.kept)))
  }

  // A session that is never forgotten keeps to the ceiling for life.
  lemma {:induction false} UnforgottenKeepsToCeiling(limits: Limits, ops: seq<Op>, key: SessionKey)
    requires Faithful(limits, ops) && NeverForgotten(limits, ops, key)
    ensures Total(limits, ops, key) == SinceForgotten(limits, ops, key) <= Ceiling(limits)
  {
    SessionCeilingHolds(limits, ops, key);
    if ops != [] {
      UnforgottenKeepsToCeiling(limits, ops[..|ops| - 1], key);
      SessionCeilingHolds(limits, ops[..|ops| - 1], key);
    }
  }

  // Every sweep of the run keeps what a real one may keep.
  ghost predicate RealSweeps(limits: Limits, ops: seq<Op>) {
    ops == [] || (
      var before, op := ops[..|ops| - 1], ops[|ops| - 1];
      && RealSweeps(limits, before)
      && (op.Sweep? ==> Swept(Run(limits, before).perKey, op.kept, op.now - op.retentionMs)))
  }

  // With a ceiling of one, a session is notified twice when a sweep comes between.
  lemma SessionCeilingIsNotForLife(limits: Limits, e: Event, again: Event)
    requires limits.sessionCeiling == 1 && limits.perMinuteCeiling >= 1 && e.now == 0
    requires again == e.(now := 600_000)
    ensures var ops := [Decide(e, None), Sweep(600_000, 300_000, {}), Decide(again, None)];
            && Faithful(limits, ops) && Timely(0, ops) && RealSweeps(limits, ops)
            && Total(limits, ops, e.Session()) == 2 > Ceiling(limits)
  {
    var one := [Decide(e, None)];
    var two := one + [Sweep(600_000, 300_000, {})];
    var ops := two + [Decide(again, None)];
    assert ops[..2] == two && two[..1] == one && one[..|one| - 1] == [];
    assert Timely(0, []) && Clock(0, []) == 0;
    assert Run(limits, two).perKey == map[];
    assert Run(limits, one).perDeviceMinute == map[(e.deviceId, 0) := 1];
    assert (600_000 - 300_000) / 60_000 == 5;
    assert Run(limits, two).perDeviceMinute == map[];
    assert Faithful(limits, one) && Faithful(limits, two);
    assert Timely(0, one) && Timely(0, two);
    assert Total(limits, one, e.Session()) == 1;
    assert Total(limits, two, e.Session()) == 1;
    assert Swept(Run(limits, one).perKey, {}, 300_000) by {
      assert Run(limits, one).perKey == map[e.Session() := CoalesceState(Some(e.kind), Some(e.notificationId), 1, 0, 0)];
    }
    assert two[|two| - 1] == Sweep(600_000, 300_000, {}) && two[..|two| - 1] == one;
    assert RealSweeps(limits, one) && RealSweeps(limits, two);
    assert ops == [Decide(e, None), Sweep(600_000, 300_000, {}), Decide(again, None)];
    assert Clock(0, two) == 600_000 && Timely(0, ops);
    assert EmitsLast(limits, ops);
  }

  // ----- One decision, from all sides -----

  // Whether the device has had its fill in the minute of the event.
  predicate Filled(limits: Limits, st: State, e: Event) {
    var minute := (e.deviceId, e.now / 60_000);
    limits.perMinuteCeiling <= if minute in st.perDeviceMinute then st.perDeviceMinute[minute] else 0
  }

  predicate Worn(limits: Limits, previous: Option<CoalesceState>) {
    previous.Some? && previous.value.count >= limits.sessionCeiling
  }

  predicate TooSoon(limits: Limits, previous: Option<CoalesceState>, e: Event) {
    previous.Some? && previous.value.lastKind == Some(e.kind) && e.now - previous.value.lastAt < limits.minIntervalMs
  }

  // Each reason, by what there is against the event; the session's count comes first, then the interval,
  // then the device.
  lemma ReasonExactly(limits: Limits, st: State, e: Event, previous: Option<CoalesceState>)
    ensures var reason := Decided(limits, st, e, previous).1;
            && (reason.SessionCeiling? <==> Worn(limits, previous))
            && (reason.RateLimited? <==> !Worn(limits, previous) && TooSoon(limits, previous, e))
            && (reason.PerDeviceCeiling? <==> !Worn(limits, previous) && !TooSoon(limits, previous, e) && Filled(limits, st, e))
            && (reason.First? <==> previous.None? && !Filled(limits, st, e))
            && (reason.Repeat? <==>
                  previous.Some? && !Worn(limits, previous) && !TooSoon(limits, previous, e) && !Filled(limits, st, e))
  {
  }

  // What is remembered of the session then, and of the device; nothing else changes.
  lemma MemoryExactly(limits: Limits, st: State, e: Event, previous: Option<CoalesceState>)
    ensures var (st', reason) := Decided(limits, st, e, previous);
            var key, minute := (e.deviceId, e.sessionId), (e.deviceId, e.now / 60_000);
            && (forall k :: k != key ==>
                  && (k in st'.perKey <==> k in st.perKey)
                  && (k in st.perKey ==> st'.perKey[k] == st.perKey[k]))
            && (forall k :: k != minute ==>
                  && (k in st'.perDeviceMinute <==> k in st.perDeviceMinute)
                  && (k in st.perDeviceMinute ==> st'.perDeviceMinute[k] == st.perDeviceMinute[k]))
            && (reason.SessionCeiling? || reason.PerDeviceCeiling? ==> st' == st)
            && (reason.RateLimited? ==>
                  && st'.perDeviceMinute == st.perDeviceMinute && key in st'.perKey
                  && st'.perKey[key] == CoalesceState(previous.value.lastKind, previous.value.lastNotificationId,
                                                      previous.value.count + 1, previous.value.firstAt, e.now))
            && (reason.First? || reason.Repeat? ==>
                  && key in st'.perKey && minute in st'.perDeviceMinute
                  && st'.perDeviceMinute[minute] == 1 + (if minute in st.perDeviceMinute then st.perDeviceMinute[minute] else 0)
                  && st'.perKey[key] == CoalesceState(Some(e.kind), Some(e.notificationId),
                                                      1 + (if previous.Some? then previous.value.count else 0),
                                                      if previous.Some? then previous.value.firstAt else e.now, e.now))
  {
  }

  // ----- What a sweep leaves, exactly -----

  // Without too many young states a sweep forgets those older than the cutoff and no other; with too many
  // it keeps ten thousand, none of them older than a young one that it forgets.
  lemma SweptExactly(before: map<SessionKey, CoalesceState>, kept: set<SessionKey>, cutoff: int)
    requires Swept(before, kept, cutoff)
    ensures var young := set k | k in before && before[k].lastAt >= cutoff;
            && kept <= young
            && (|young| <= 10_000 ==> kept == young)
            && (|young| > 10_000 ==> |kept| == 10_000)
            && forall k, gone :: k in kept && gone in young - kept ==> before[gone].lastAt <= before[k].lastAt
  {
    var young := set k | k in before && before[k].lastAt >= cutoff;
    assert kept <= young;
    if kept != young {
      assert |kept + (young - kept)| == |kept| + |young - kept|;
      assert kept + (young - kept) == young;
      var k :| k in young - kept;
      assert young - kept != {};
    }
  }

  // A minute of a device is forgotten when it was over before the retention began.
  lemma SweptMinutesExactly(minutes: map<MinuteKey, nat>, now: int, retentionMs: int, key: MinuteKey)
    requires key in minutes
    ensures key in SweptMinutes(minutes, now, retentionMs) <==> now - retentionMs < (key.1 + 1) * 60_000
    ensures key in SweptMinutes(minutes, now, retentionMs) ==> SweptMinutes(minutes, now, retentionMs)[key] == minutes[key]
  {
    var cutoff := now - retentionMs;
    assert cutoff == cutoff / 60_000 * 60_000 + cutoff % 60_000;
  }
}
