// The sliding window that limits the upload attempts of one installation.
module RateQuota {
  import opened SlidingWindow

  const WINDOW_MS := 60_000

  datatype Limits = Limits(uploadsPerMinute: nat, aggregateBytes: nat, retainedBytesPerInstallation: nat)

  datatype Outcome =
    | RateLimited(resetAt: int)
    | StorageFull(limit: nat)
    | QuotaExceeded(limit: nat)
    | Allowed(remaining: nat)

  // The stamps younger than the window are those of the last 59 999 ms and the present one.
  function Stamps(stamps: seq<int>, at: int): seq<int> {
    Recorded(stamps, at, WINDOW_MS - 1)
  }

  class RateQuotaTracker {
    const limits: Limits
    var uploadWindows: map<string, seq<int>>

    constructor (limits: Limits)
      ensures this.limits == limits && uploadWindows == map[]
    {
      this.limits := limits;
      uploadWindows := map[];
    }

    function WindowOf(installation: string): seq<int>
      reads this
    {
      if installation in uploadWindows then uploadWindows[installation] else []
    }

    // `aggregate` and `retained` are the byte totals of the attachment tables at this moment.
    method CanUpload(installation: string, declaredBytes: nat, aggregate: nat, retained: nat, at: int)
      returns (r: Outcome)
      modifies this`uploadWindows
      ensures uploadWindows == old(uploadWindows)[installation := Stamps(old(WindowOf(installation)), at)]
      ensures var recent := Stamps(old(WindowOf(installation)), at);
              && (r.RateLimited? <==> |recent| > limits.uploadsPerMinute)
              && (r.RateLimited? ==> r.resetAt == recent[0] + WINDOW_MS)
              && (r.Allowed? ==> r.remaining == limits.uploadsPerMinute - |recent|)
      ensures r.Allowed? ==> && aggregate + declaredBytes <= limits.aggregateBytes
                             && retained + declaredBytes <= limits.retainedBytesPerInstallation
      ensures r.StorageFull? ==> aggregate + declaredBytes > limits.aggregateBytes == r.limit
      ensures r.QuotaExceeded? ==> && aggregate + declaredBytes <= limits.aggregateBytes
                                   && retained + declaredBytes > limits.retainedBytesPerInstallation == r.limit
    {
      var window := WindowOf(installation);
      var recent: seq<int> := [];
      for i := 0 to |window|
        invariant recent == Recent(window[..i], at - (WINDOW_MS - 1))
      {
        assert window[..i + 1][..i] == window[..i];
        if at - window[i] < WINDOW_MS { recent := recent + [window[i]]; }
      }
      assert window[..|window|] == window;
      recent := recent + [at];
      uploadWindows := uploadWindows[installation := recent];
      if |recent| > limits.uploadsPerMinute { return RateLimited(recent[0] + WINDOW_MS); }
      if aggregate + declaredBytes > limits.aggregateBytes { return StorageFull(limits.aggregateBytes); }
      if retained + declaredBytes > limits.retainedBytesPerInstallation {
        return QuotaExceeded(limits.retainedBytesPerInstallation);
      }
      r := Allowed(limits.uploadsPerMinute - |recent|);
    }
  }

  // ----- Runs: the times of one installation's calls, refused ones included -----

  function StampsAfter(calls: seq<int>): seq<int> {
    if calls == [] then [] else Stamps(StampsAfter(calls[..|calls| - 1]), calls[|calls| - 1])
  }

  lemma {:induction false} StampsAreTheLastMinute(calls: seq<int>)
    requires Ascending(calls)
    ensures StampsAfter(calls) == Window(calls, WINDOW_MS - 1)
  {
    if calls != [] {
      var n := |calls| - 1;
      StampsAreTheLastMinute(calls[..n]);
      assert forall t :: t in calls[..n] ==> t <= calls[n];
      RecordedIsWindow(calls[..n], calls[n], WINDOW_MS - 1);
      assert calls[..n] + [calls[n]] == calls;
    }
  }

  // Call `k` passes the rate check.
  predicate PassesRate(calls: seq<int>, k: nat, uploadsPerMinute: nat)
    requires k < |calls|
  {
    |StampsAfter(calls[..k + 1])| <= uploadsPerMinute
  }

  // The calls with stamps in the minute from `from` that pass the rate check.
  function PassedInMinute(calls: seq<int>, n: nat, from: int, uploadsPerMinute: nat): nat
    requires n <= |calls|
  {
    if n == 0 then 0
    else
      var passes := from <= calls[n - 1] < from + WINDOW_MS && PassesRate(calls, n - 1, uploadsPerMinute);
      PassedInMinute(calls, n - 1, from, uploadsPerMinute) + (if passes then 1 else 0)
  }

  lemma {:induction false} PassedInMinuteIsPassedIn(calls: seq<int>, n: nat, from: int, uploadsPerMinute: nat)
    requires n <= |calls| && Ascending(calls)
    ensures PassedInMinute(calls, n, from, uploadsPerMinute)
         == PassedIn(calls, n, from, from + (WINDOW_MS - 1), WINDOW_MS - 1, uploadsPerMinute + 1)
  {
    if n > 0 {
      PassedInMinuteIsPassedIn(calls, n - 1, from, uploadsPerMinute);
      PassesAsWindow(calls, n - 1, uploadsPerMinute);
    }
  }

  lemma PassesAsWindow(calls: seq<int>, k: nat, uploadsPerMinute: nat)
    requires k < |calls| && Ascending(calls)
    ensures PassesRate(calls, k, uploadsPerMinute) <==> |Window(calls[..k + 1], WINDOW_MS - 1)| < uploadsPerMinute + 1
  {
    StampsAreTheLastMinute(calls[..k + 1]);
  }

  // No minute, wherever it starts, sees more than the limit pass.
  lemma AtMostTheLimit(calls: seq<int>, from: int, uploadsPerMinute: nat)
    requires Ascending(calls)
    ensures PassedInMinute(calls, |calls|, from, uploadsPerMinute) <= uploadsPerMinute
  {
    PassedInMinuteIsPassedIn(calls, |calls|, from, uploadsPerMinute);
    FewPass(calls, |calls|, from, WINDOW_MS - 1, uploadsPerMinute + 1);
  }

  // ----- The promised reset time -----

  lemma {:induction false} RecentAbove(stamps: seq<int>, cutoff: int)
    ensures forall t :: t in Recent(stamps, cutoff) ==> t >= cutoff && t in stamps
  {
    if stamps != [] {
      RecentAbove(stamps[..|stamps| - 1], cutoff);
      assert stamps == stamps[..|stamps| - 1] + [stamps[|stamps| - 1]];
    }
  }

  // The time that a refused caller is told.
  function ResetAt(calls: seq<int>): int
    requires StampsAfter(calls) != []
  {
    StampsAfter(calls)[0] + WINDOW_MS
  }

  lemma OldestIsRecent(calls: seq<int>)
    requires Ascending(calls) && calls != [] && StampsAfter(calls) != []
    ensures StampsAfter(calls)[0] >= calls[|calls| - 1] - (WINDOW_MS - 1)
  {
    StampsAreTheLastMinute(calls);
    var stamps := Recent(calls, calls[|calls| - 1] - (WINDOW_MS - 1));
    RecentAbove(calls, calls[|calls| - 1] - (WINDOW_MS - 1));
    assert stamps[0] in stamps;
  }

  lemma AscendingSnoc(calls: seq<int>, now: int)
    requires Ascending(calls) && (calls != [] ==> calls[|calls| - 1] <= now)
    ensures Ascending(calls + [now])
  {
    var all := calls + [now];
    forall i, j | 0 <= i < j < |all| ensures all[i] <= all[j] {
      assert i < |calls| - 1 ==> calls[i] <= calls[|calls| - 1];
    }
  }

  lemma StampsOfNext(calls: seq<int>, now: int)
    requires Ascending(calls) && (calls != [] ==> calls[|calls| - 1] <= now)
    ensures StampsAfter(calls + [now]) == Recent(calls, now - (WINDOW_MS - 1)) + [now]
  {
    AscendingSnoc(calls, now);
    StampsAreTheLastMinute(calls + [now]);
    RecentSnoc(calls, now, now - (WINDOW_MS - 1));
  }

  // The next call passes when it finds fewer stamps than the limit.
  lemma PassesNext(calls: seq<int>, now: int, uploadsPerMinute: nat)
    requires Ascending(calls) && (calls != [] ==> calls[|calls| - 1] <= now)
    ensures PassesRate(calls + [now], |calls|, uploadsPerMinute)
       <==> |Recent(calls, now - (WINDOW_MS - 1))| < uploadsPerMinute
  {
    StampsOfNext(calls, now);
    assert (calls + [now])[..|calls| + 1] == calls + [now];
  }

  // A refused caller that stays silent and comes back exactly when told passes the rate check if and
  // only if, of all its calls, fewer than the limit came after the oldest one counted against it.
  lemma {:induction false} ResetHoldsExactly(calls: seq<int>, uploadsPerMinute: nat)
    requires Ascending(calls) && calls != [] && |StampsAfter(calls)| > uploadsPerMinute
    ensures PassesRate(calls + [ResetAt(calls)], |calls|, uploadsPerMinute)
       <==> |Recent(calls, StampsAfter(calls)[0] + 1)| < uploadsPerMinute
  {
    OldestIsRecent(calls);
    PassesNext(calls, ResetAt(calls), uploadsPerMinute);
    assert ResetAt(calls) - (WINDOW_MS - 1) == StampsAfter(calls)[0] + 1;
  }

  lemma {:induction false} RecentDropsFirst(stamps: seq<int>)
    requires |stamps| >= 1 && forall i :: 1 <= i < |stamps| ==> stamps[i] > stamps[0]
    ensures Recent(stamps, stamps[0] + 1) == stamps[1..]
  {
    var n := |stamps| - 1;
    if n > 0 {
      RecentDropsFirst(stamps[..n]);
      assert stamps[..n][1..] + [stamps[n]] == stamps[1..];
    } else {
      assert stamps[..0] == [];
    }
  }

  // So with distinct stamps the time it was told is always too early: the refused call counts too.
  lemma {:induction false} ResetIsTooEarly(calls: seq<int>, uploadsPerMinute: nat)
    requires Rising(calls) && calls != [] && |StampsAfter(calls)| > uploadsPerMinute
    ensures !PassesRate(calls + [ResetAt(calls)], |calls|, uploadsPerMinute)
  {
    RisingAscends(calls);
    StampsRise(calls);
    AllButTheFirst(StampsAfter(calls));
    YoungerThanOldest(calls);
    ResetHoldsExactly(calls, uploadsPerMinute);
  }

  ghost predicate Rising(stamps: seq<int>) {
    forall i, j :: 0 <= i < j < |stamps| ==> stamps[i] < stamps[j]
  }

  lemma RisingAscends(stamps: seq<int>)
    requires Rising(stamps)
    ensures Ascending(stamps)
  {
  }

  lemma AllButTheFirst(stamps: seq<int>)
    requires stamps != [] && Rising(stamps)
    ensures |Recent(stamps, stamps[0] + 1)| == |stamps| - 1
  {
    RecentDropsFirst(stamps);
  }

  lemma StampsRise(calls: seq<int>)
    requires calls != [] && Rising(calls)
    ensures Rising(StampsAfter(calls))
  {
    StampsAreTheLastMinute(calls);
    RecentRises(calls, calls[|calls| - 1] - (WINDOW_MS - 1));
  }

  // What is younger than the oldest stamp kept is younger in the whole history too.
  lemma YoungerThanOldest(calls: seq<int>)
    requires Ascending(calls) && calls != [] && StampsAfter(calls) != []
    ensures Recent(StampsAfter(calls), StampsAfter(calls)[0] + 1) == Recent(calls, StampsAfter(calls)[0] + 1)
  {
    OldestIsRecent(calls);
    StampsAreTheLastMinute(calls);
    RecentOfRecent(calls, calls[|calls| - 1] - (WINDOW_MS - 1), StampsAfter(calls)[0] + 1);
  }

  lemma {:induction false} RecentRises(stamps: seq<int>, cutoff: int)
    requires Rising(stamps)
    ensures Rising(Recent(stamps, cutoff))
  {
    if stamps != [] {
      var n := |stamps| - 1;
      var rest := Recent(stamps[..n], cutoff);
      RecentRises(stamps[..n], cutoff);
      RecentAbove(stamps[..n], cutoff);
      forall i | 0 <= i < |rest| ensures rest[i] < stamps[n] {
        assert rest[i] in rest;
        var k :| 0 <= k < n && stamps[..n][k] == rest[i];
        assert stamps[k] < stamps[n];
      }
    }
  }

  lemma ResetIsTooEarlyWitness()
    ensures StampsAfter([0, 1000]) == [0, 1000] && |StampsAfter([0, 1000])| > 1
    ensures |StampsAfter([0, 1000, 0 + WINDOW_MS])| > 1
  {
    assert [0, 1000, WINDOW_MS][..2] == [0, 1000] && [0, 1000][..1] == [0] && [0][..0] == [];
    assert StampsAfter([0]) == Stamps([], 0) == [0];
    assert Recent([0], 1000 - (WINDOW_MS - 1)) == [] + [0];
    assert StampsAfter([0, 1000]) == Stamps([0], 1000) == [0, 1000];
    RecentDropsFirst([0, 1000]);
  }
}
