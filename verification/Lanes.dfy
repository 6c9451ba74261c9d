// Per-key command lanes built from promise chains. A lane keeps only the promise of its last task,
// and forgets even that when it settles; the proofs show that each key still behaves as one
// queue served strictly in order.
module Lanes {
  import opened Wrappers

  // How far a task has come: its callback has not started, is at one of its own steps, or settled.
  datatype Progress = Waiting | Claimed | Started | Called | Settled

  // A promise: what it runs once `prior` has settled, successfully or not.
  datatype Task = Task(key: string, command: string, prior: Option<nat>, progress: Progress)

  // `tails` maps a key to the promise of its last task.
  datatype Lanes = Lanes(tasks: seq<Task>, tails: map<string, nat>)

  const NO_LANES := Lanes([], map[])

  function Enqueued(s: Lanes, key: string, command: string): Lanes {
    var prior := if key in s.tails then Some(s.tails[key]) else None;
    Lanes(s.tasks + [Task(key, command, prior, Waiting)], s.tails[key := |s.tasks|])
  }

  // The callback of task `i` may start: the promise it was chained to has settled.
  predicate MayStart(s: Lanes, i: nat) {
    && i < |s.tasks| && s.tasks[i].progress.Waiting?
    && (s.tasks[i].prior.Some? ==>
          s.tasks[i].prior.value < |s.tasks| && s.tasks[s.tasks[i].prior.value].progress.Settled?)
  }

  function Moved(s: Lanes, i: nat, progress: Progress): Lanes
    requires i < |s.tasks|
  {
    s.(tasks := s.tasks[i := s.tasks[i].(progress := progress)])
  }

  // The `finally` handler of task `i`: forget the lane if this is still its last task.
  function Forgotten(s: Lanes, i: nat): Lanes
    requires i < |s.tasks|
  {
    var key := s.tasks[i].key;
    if key in s.tails && s.tails[key] == i then s.(tails := s.tails - {key}) else s
  }

  class CommandLanes {
    var tasks: seq<Task>
    var tails: map<string, nat>

    function Contents(): Lanes
      reads this
    {
      Lanes(tasks, tails)
    }

    constructor ()
      ensures Contents() == NO_LANES
    {
      tasks, tails := [], map[];
    }

    method Enqueue(key: string, command: string) returns (i: nat)
      modifies this
      ensures Contents() == Enqueued(old(Contents()), key, command) && i == |old(tasks)|
    {
      var prior := if key in tails then Some(tails[key]) else None;
      i := |tasks|;
      tasks := tasks + [Task(key, command, prior, Waiting)];
      tails := tails[key := i];
    }

    method Move(i: nat, progress: Progress)
      requires i < |tasks|
      modifies this`tasks
      ensures Contents() == Moved(old(Contents()), i, progress)
    {
      tasks := tasks[i := tasks[i].(progress := progress)];
    }

    method Finally(i: nat)
      requires i < |tasks| && tasks[i].progress.Settled?
      modifies this`tails
      ensures Contents() == Forgotten(old(Contents()), i)
    {
      var key := tasks[i].key;
      if key in tails && tails[key] == i {
        tails := tails - {key};
      }
    }
  }

  // ----- The queue that the chains implement -----

  // Every earlier task of the same lane has settled.
  ghost predicate HeadOfLane(s: Lanes, i: nat)
    requires i < |s.tasks|
  {
    forall j :: 0 <= j < i && s.tasks[j].key == s.tasks[i].key ==> s.tasks[j].progress.Settled?
  }

  // `i` is the last task of its lane before index `limit`.
  ghost predicate LastBefore(s: Lanes, i: nat, key: string, limit: nat)
    requires limit <= |s.tasks|
  {
    && i < limit && s.tasks[i].key == key
    && forall j :: i < j < limit ==> s.tasks[j].key != key
  }

  ghost predicate ChainOk(s: Lanes, i: nat)
    requires i < |s.tasks|
  {
    var task := s.tasks[i];
    && (task.prior.Some? ==> LastBefore(s, task.prior.value, task.key, i))
    && (task.prior.None? ==> HeadOfLane(s, i))
  }

  ghost predicate TailOk(s: Lanes, key: string) {
    if key in s.tails then LastBefore(s, s.tails[key], key, |s.tasks|)
    else forall j :: 0 <= j < |s.tasks| && s.tasks[j].key == key ==> s.tasks[j].progress.Settled?
  }

  // A task whose callback has started is at the head of its lane.
  ghost predicate InTurn(s: Lanes) {
    forall i :: 0 <= i < |s.tasks| && !s.tasks[i].progress.Waiting? ==> HeadOfLane(s, i)
  }

  ghost predicate LanesOk(s: Lanes) {
    && (forall i :: 0 <= i < |s.tasks| ==> ChainOk(s, i))
    && (forall key :: TailOk(s, key))
    && InTurn(s)
  }

  // ----- Steps -----

  predicate Steps(from: Progress, to: Progress) {
    match from
    case Waiting => true
    case Settled => to.Settled?
    case _ => !to.Waiting?
  }

  lemma EnqueueKeepsLanes(s: Lanes, key: string, command: string)
    requires LanesOk(s)
    ensures LanesOk(Enqueued(s, key, command))
  {
    var s', n := Enqueued(s, key, command), |s.tasks|;
    assert TailOk(s, key);
    forall i | 0 <= i < |s'.tasks| ensures ChainOk(s', i) {
      if i < n {
        assert ChainOk(s, i) && s'.tasks[i] == s.tasks[i];
        assert HeadOfLane(s, i) ==> HeadOfLane(s', i);
      }
    }
    forall k ensures TailOk(s', k) {
      assert TailOk(s, k);
    }
    forall i | 0 <= i < |s'.tasks| && !s'.tasks[i].progress.Waiting? ensures HeadOfLane(s', i) {
      assert HeadOfLane(s, i);
    }
  }

  // Starting a task whose prior has settled puts it at the head of its lane: everything before the
  // prior settled before the prior itself could start.
  lemma StartedIsHead(s: Lanes, i: nat)
    requires LanesOk(s) && MayStart(s, i)
    ensures HeadOfLane(s, i)
  {
    assert ChainOk(s, i);
    if s.tasks[i].prior.Some? {
      assert HeadOfLane(s, s.tasks[i].prior.value);
    }
  }

  lemma MoveKeepsLanes(s: Lanes, i: nat, progress: Progress)
    requires LanesOk(s) && i < |s.tasks| && Steps(s.tasks[i].progress, progress)
    requires s.tasks[i].progress.Waiting? ==> progress.Waiting? || MayStart(s, i)
    ensures LanesOk(Moved(s, i, progress))
  {
    var s' := Moved(s, i, progress);
    if MayStart(s, i) {
      StartedIsHead(s, i);
    }
    forall j | 0 <= j < |s'.tasks| && HeadOfLane(s, j) ensures HeadOfLane(s', j) {
    }
    forall j | 0 <= j < |s'.tasks| ensures ChainOk(s', j) {
      assert ChainOk(s, j);
    }
    forall k ensures TailOk(s', k) {
      assert TailOk(s, k);
    }
    forall j | 0 <= j < |s'.tasks| && !s'.tasks[j].progress.Waiting? ensures HeadOfLane(s', j) {
      assert HeadOfLane(s, j);
    }
  }

  lemma ForgetKeepsLanes(s: Lanes, i: nat)
    requires LanesOk(s) && i < |s.tasks| && s.tasks[i].progress.Settled?
    ensures LanesOk(Forgotten(s, i))
  {
    var s' := Forgotten(s, i);
    assert HeadOfLane(s, i) && TailOk(s, s.tasks[i].key);
    forall j | 0 <= j < |s'.tasks| ensures ChainOk(s', j) {
      assert ChainOk(s, j);
    }
    forall k ensures TailOk(s', k) {
      assert TailOk(s, k);
    }
  }

  // Tasks of one key run in the order they were enqueued and never overlap.
  lemma LaneIsFifo(s: Lanes, i: nat, j: nat)
    requires LanesOk(s) && i < j < |s.tasks| && s.tasks[i].key == s.tasks[j].key
    ensures !s.tasks[j].progress.Waiting? ==> s.tasks[i].progress.Settled?
  {
  }

  // No lane is ever stuck: the oldest task that has not settled has started or may start.
  lemma OldestCanProceed(s: Lanes, i: nat)
    requires LanesOk(s) && i < |s.tasks| && !s.tasks[i].progress.Settled?
    requires forall j :: 0 <= j < i && s.tasks[j].key == s.tasks[i].key ==> s.tasks[j].progress.Settled?
    ensures s.tasks[i].progress.Waiting? ==> MayStart(s, i)
  {
    assert ChainOk(s, i);
  }
}
