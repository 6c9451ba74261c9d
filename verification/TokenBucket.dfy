// The token bucket that limits the messages of one socket.
module TokenBucket {
  const CAPACITY := 20.0
  const PER_MS := 0.01

  function Refilled(tokens: real, tokenAt: int, now: int): real {
    var filled := tokens + (now - tokenAt) as real * PER_MS;
    if filled < CAPACITY then filled else CAPACITY
  }

  class SocketTokens {
    var tokens: real
    var tokenAt: int

    constructor (now: int)
      ensures tokens == CAPACITY && tokenAt == now
    {
      tokens, tokenAt := CAPACITY, now;
    }

    method ConsumeToken(now: int) returns (ok: bool)
      modifies this
      ensures tokenAt == now && ok == (Refilled(old(tokens), old(tokenAt), now) >= 1.0)
      ensures tokens == Refilled(old(tokens), old(tokenAt), now) - (if ok then 1.0 else 0.0)
    {
      var filled := tokens + (now - tokenAt) as real * PER_MS;
      tokens := if filled < CAPACITY then filled else CAPACITY;
      tokenAt := now;
      if tokens < 1.0 { return false; }
      tokens := tokens - 1.0;
      ok := true;
    }
  }

  // ----- Runs: the times of the messages of one socket -----

  // The time of the call before call `i`.
  function Before(start: int, times: seq<int>, i: nat): int
    requires i <= |times|
  {
    if i == 0 then start else times[i - 1]
  }

  ghost predicate Ascending(start: int, times: seq<int>) {
    forall i :: 0 <= i < |times| ==> Before(start, times, i) <= times[i]
  }

  // The tokens left after the calls at `times`, and how many of them passed.
  function After(tokens: real, tokenAt: int, times: seq<int>): (real, nat) {
    if times == [] then (tokens, 0)
    else
      var n := |times| - 1;
      var (left, passed) := After(tokens, tokenAt, times[..n]);
      var filled := Refilled(left, Before(tokenAt, times, n), times[n]);
      if filled < 1.0 then (filled, passed) else (filled - 1.0, passed + 1)
  }

  // Messages passed and tokens left never exceed what was there and what flowed in.
  lemma {:induction false} Conserved(tokens: real, tokenAt: int, times: seq<int>)
    requires Ascending(tokenAt, times) && 0.0 <= tokens <= CAPACITY
    ensures var (left, passed) := After(tokens, tokenAt, times);
            && 0.0 <= left <= CAPACITY
            && (times != [] ==>
                  passed as real + left <= tokens + (times[|times| - 1] - tokenAt) as real * PER_MS)
    ensures times == [] ==> After(tokens, tokenAt, times) == (tokens, 0)
  {
    if times != [] {
      var n := |times| - 1;
      forall i | 0 <= i < n ensures Before(tokenAt, times[..n], i) <= times[..n][i] {
        assert Before(tokenAt, times, i) <= times[i];
      }
      Conserved(tokens, tokenAt, times[..n]);
      assert Before(tokenAt, times, n) <= times[n];
    }
  }

  lemma {:induction false} AfterSplits(tokens: real, tokenAt: int, a: seq<int>, b: seq<int>)
    ensures var (left, passed) := After(tokens, tokenAt, a);
            var (left', passed') := After(left, Before(tokenAt, a, |a|), b);
            After(tokens, tokenAt, a + b) == (left', passed + passed')
    decreases |b|
  {
    if b == [] {
      assert a + b == a;
    } else {
      AfterSplits(tokens, tokenAt, a, b[..|b| - 1]);
      assert (a + b)[..|a + b| - 1] == a + b[..|b| - 1];
    }
  }

  lemma AscendingRest(start: int, earlier: seq<int>, times: seq<int>)
    requires Ascending(start, earlier + times)
    ensures Ascending(start, earlier)
    ensures Ascending(Before(start, earlier, |earlier|), times)
  {
    var all := earlier + times;
    forall i | 0 <= i < |earlier| ensures Before(start, earlier, i) <= earlier[i] {
      assert Before(start, all, i) <= all[i];
    }
    var at := Before(start, earlier, |earlier|);
    forall i | 0 <= i < |times| ensures Before(at, times, i) <= times[i] {
      assert Before(start, all, |earlier| + i) <= all[|earlier| + i];
    }
  }

  // From a full bucket or any later state, any stretch of calls passes at most 20 plus one for each
  // 100 ms between the first and the last of them.
  lemma BurstIsBounded(start: int, earlier: seq<int>, times: seq<int>)
    requires Ascending(start, earlier + times) && times != []
    ensures (After(CAPACITY, start, earlier + times).1 - After(CAPACITY, start, earlier).1) as real
         <= CAPACITY + (times[|times| - 1] - times[0]) as real * PER_MS
  {
    AscendingRest(start, earlier, times);
    Conserved(CAPACITY, start, earlier);
    AfterSplits(CAPACITY, start, earlier, times);
    var left := After(CAPACITY, start, earlier).0;
    var at := Before(start, earlier, |earlier|);
    FirstCallStartsFull(left, at, times);
  }

  // However long the silence before it, the first call finds at most a full bucket.
  lemma FirstCallStartsFull(tokens: real, tokenAt: int, times: seq<int>)
    requires Ascending(tokenAt, times) && times != [] && 0.0 <= tokens <= CAPACITY
    ensures After(tokens, tokenAt, times).1 as real <= CAPACITY + (times[|times| - 1] - times[0]) as real * PER_MS
  {
    var filled := Refilled(tokens, tokenAt, times[0]);
    assert Before(tokenAt, times, 0) <= times[0];
    assert (times[0] - tokenAt) as real * PER_MS >= 0.0;
    SameFromFirstCall(tokens, tokenAt, times);
    forall i | 0 <= i < |times| ensures Before(times[0], times, i) <= times[i] {
      assert Before(tokenAt, times, i) <= times[i];
    }
    Conserved(filled, times[0], times);
  }

  lemma {:induction false} SameFromFirstCall(tokens: real, tokenAt: int, times: seq<int>)
    requires times != [] && tokens <= CAPACITY
    ensures After(tokens, tokenAt, times) == After(Refilled(tokens, tokenAt, times[0]), times[0], times)
  {
    if |times| > 1 {
      SameFromFirstCall(tokens, tokenAt, times[..|times| - 1]);
    } else {
      assert times[..0] == [];
    }
  }

  // A client that keeps 100 ms between messages is never refused.
  lemma {:induction false} SlowSenderNeverRefused(start: int, times: seq<int>)
    requires forall i :: 0 < i < |times| ==> times[i] - times[i - 1] >= 100
    requires times != [] ==> times[0] >= start
    ensures After(CAPACITY, start, times).1 == |times|
    ensures After(CAPACITY, start, times).0 >= CAPACITY - 1.0
  {
    if times != [] {
      SlowSenderNeverRefused(start, times[..|times| - 1]);
    }
  }

  // ----- What a client can count on -----

  // After two seconds of silence the bucket is full again, whatever was in it.
  lemma RestedIsFull(tokens: real, tokenAt: int, now: int)
    requires 0.0 <= tokens && now - tokenAt >= 2000
    ensures Refilled(tokens, tokenAt, now) == 20.0
  {
  }

  // Of messages sent at once to a full bucket twenty pass, and all when there are no more.
  lemma {:induction false} BurstExactly(at: int, times: seq<int>)
    requires forall t :: t in times ==> t == at
    ensures After(20.0, at, times)
         == if |times| <= 20 then (20.0 - |times| as real, |times|) else (0.0, 20)
  {
    if times != [] {
      var n := |times| - 1;
      assert forall t :: t in times[..n] ==> t in times;
      BurstExactly(at, times[..n]);
      assert times[n] in times;
      assert n > 0 ==> times[n - 1] in times;
    }
  }

  // From an empty bucket the next message passes exactly when 100 milliseconds have gone by.
  lemma EmptyWaits(at: int, now: int)
    requires at <= now
    ensures After(0.0, at, [now]).1 == if now - at >= 100 then 1 else 0
  {
    assert [now][..0] == [];
  }
}
