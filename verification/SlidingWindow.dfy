// A list of time stamps pruned to a trailing window, as the crash detector and the upload limiter
// keep it: the pruned list always says what the full history would.
module SlidingWindow {
  // The stamps at or after `cutoff`, in order.
  function Recent(stamps: seq<int>, cutoff: int): seq<int> {
    if stamps == [] then []
    else
      var n := |stamps| - 1;
      var rest := Recent(stamps[..n], cutoff);
      if stamps[n] >= cutoff then rest + [stamps[n]] else rest
  }

  // The list that the code keeps: pruned, then extended by the current time.
  function Recorded(stamps: seq<int>, now: int, window: int): seq<int> {
    Recent(stamps, now - window) + [now]
  }

  // What is left of a history after its last event.
  function Window(history: seq<int>, window: int): seq<int> {
    if history == [] then [] else Recent(history, history[|history| - 1] - window)
  }

  ghost predicate Ascending(stamps: seq<int>) {
    forall i, j :: 0 <= i < j < |stamps| ==> stamps[i] <= stamps[j]
  }

  lemma {:induction false} RecentOfRecent(stamps: seq<int>, earlier: int, later: int)
    requires earlier <= later
    ensures Recent(Recent(stamps, earlier), later) == Recent(stamps, later)
  {
    if stamps != [] {
      var n := |stamps| - 1;
      RecentOfRecent(stamps[..n], earlier, later);
      var rest := Recent(stamps[..n], earlier);
      assert (rest + [stamps[n]])[..|rest|] == rest;
    }
  }

  lemma RecentSnoc(stamps: seq<int>, now: int, cutoff: int)
    ensures Recent(stamps + [now], cutoff)
         == if now >= cutoff then Recent(stamps, cutoff) + [now] else Recent(stamps, cutoff)
  {
    assert (stamps + [now])[..|stamps|] == stamps;
  }

  // Pruning loses nothing: recording on the pruned list gives the window of the full history.
  lemma RecordedIsWindow(history: seq<int>, now: int, window: nat)
    requires forall t :: t in history ==> t <= now
    ensures Recorded(Window(history, window), now, window) == Window(history + [now], window)
  {
    WindowRecent(history, now, window);
    RecentSnoc(history, now, now - window);
  }

  lemma WindowRecent(history: seq<int>, now: int, window: nat)
    requires forall t :: t in history ==> t <= now
    ensures Recent(Window(history, window), now - window) == Recent(history, now - window)
  {
    if history != [] {
      assert history[|history| - 1] in history;
      RecentOfRecent(history, history[|history| - 1] - window, now - window);
    }
  }

  // ----- How many events pass a limit -----

  // Event `k` passes when the window ending with it holds fewer than `limit` events.
  predicate Passes(history: seq<int>, k: nat, window: int, limit: int)
    requires k < |history|
  {
    |Recent(history[..k + 1], history[k] - window)| < limit
  }

  // The passing events among the first `n` with stamps in [from, to].
  function PassedIn(history: seq<int>, n: nat, from: int, to: int, window: int, limit: int): nat
    requires n <= |history|
  {
    if n == 0 then 0
    else
      var passes := from <= history[n - 1] <= to && Passes(history, n - 1, window, limit);
      PassedIn(history, n - 1, from, to, window, limit) + (if passes then 1 else 0)
  }

  lemma {:induction false} PassedAreRecent(history: seq<int>, n: nat, from: int, to: int, window: int, limit: int,
        cutoff: int)
    requires n <= |history| && cutoff <= from
    ensures PassedIn(history, n, from, to, window, limit) <= |Recent(history[..n], cutoff)|
  {
    if n > 0 {
      PassedAreRecent(history, n - 1, from, to, window, limit, cutoff);
      assert history[..n][..n - 1] == history[..n - 1];
    }
  }

  // Fewer than `limit` events pass in any stretch of time as long as the window.
  lemma {:induction false} FewPass(history: seq<int>, n: nat, from: int, window: nat, limit: int)
    requires n <= |history| && limit >= 1
    ensures PassedIn(history, n, from, from + window, window, limit) < limit
  {
    if n > 0 {
      FewPass(history, n - 1, from, window, limit);
      if from <= history[n - 1] <= from + window && Passes(history, n - 1, window, limit) {
        PassedAreRecent(history, n - 1, from, from + window, window, limit, history[n - 1] - window);
        assert history[..n][..n - 1] == history[..n - 1];
      }
    }
  }

  // With no limit to stay under nothing passes, since every event is in its own window.
  lemma {:induction false} NonePass(history: seq<int>, n: nat, from: int, to: int, window: nat, limit: int)
    requires n <= |history| && limit < 1
    ensures PassedIn(history, n, from, to, window, limit) == 0
  {
    if n > 0 {
      NonePass(history, n - 1, from, to, window, limit);
    }
  }

  lemma FewOrNone(history: seq<int>, from: int, window: nat, limit: int)
    ensures var passed := PassedIn(history, |history|, from, from + window, window, limit); passed < limit || passed == 0
  {
    if limit >= 1 {
      FewPass(history, |history|, from, window, limit);
    } else {
      NonePass(history, |history|, from, from + window, window, limit);
    }
  }

  // What passed does not depend on what comes later.
  lemma {:induction false} PassedInPrefix(history: seq<int>, later: seq<int>, n: nat, from: int, to: int, window: int,
        limit: int)
    requires n <= |history| <= |later| && later[..|history|] == history
    ensures PassedIn(later, n, from, to, window, limit) == PassedIn(history, n, from, to, window, limit)
  {
    if n > 0 {
      PassedInPrefix(history, later, n - 1, from, to, window, limit);
      assert later[..n] == later[..|history|][..n] == history[..n];
      assert later[n - 1] == later[..|history|][n - 1];
    }
  }
}
