/** The order in which the pool's queue gives tasks out, and what a caller has seen before it queues one or waits. */
module ThreadPoolOrder {
  import opened ThreadPools

  // ---------- the queue ----------

  /** The task that a step hands to the queue: its caller stops scanning and goes its way. */
  function Joining(p: Pool, e: Event, q: Pool): seq<Task> {
    if e.ScanStep? && e.c < |p.callers| && e.c < |q.callers| && p.callers[e.c].Scanning? && q.callers[e.c].Out?
    then [p.callers[e.c].task] else []
  }

  /** The task that a step takes up again from the queue, to scan the workers for it. */
  function Leaving(e: Event, q: Pool): seq<Task> {
    if e.Dequeue? && e.c < |q.callers| && q.callers[e.c].Scanning? then [q.callers[e.c].task] else []
  }

  /** All tasks queued before state `i`, in the order of the steps. */
  function Joined(states: seq<Pool>, events: seq<Event>, i: nat): seq<Task>
    requires Run(states, events) && i < |states|
  {
    if i == 0 then [] else Joined(states, events, i - 1) + Joining(states[i - 1], events[i - 1], states[i])
  }

  /** All tasks taken up again before state `i`. */
  function Left(states: seq<Pool>, events: seq<Event>, i: nat): seq<Task>
    requires Run(states, events) && i < |states|
  {
    if i == 0 then [] else Left(states, events, i - 1) + Leaving(events[i - 1], states[i])
  }

  lemma StepQueue(p: Pool, e: Event)
    requires Enabled(p, e)
    ensures var q := Step(p, e); p.queue + Joining(p, e, q) == Leaving(e, q) + q.queue
  {
    hide PoolLocked, WorkerLocked;
  }

  /** First in, first out, in every run: the tasks taken up so far, then those that wait, are those queued so far. */
  lemma {:induction false} FirstInFirstOut(states: seq<Pool>, events: seq<Event>, i: nat)
    requires Run(states, events) && i < |states|
    ensures Joined(states, events, i) == Left(states, events, i) + states[i].queue
  {
    hide Joining, Leaving, Step, Enabled, NewPool;
    if i == 0 {
      EmptyAtFirst(states, events);
    } else {
      FirstInFirstOut(states, events, i - 1);
      var p, e := states[i - 1], events[i - 1];
      assert Enabled(p, e) && states[i] == Step(p, e);
      StepQueue(p, e);
      Regrouped(Left(states, events, i - 1), p.queue, Joining(p, e, states[i]), Leaving(e, states[i]), states[i].queue);
    }
  }

  lemma EmptyAtFirst(states: seq<Pool>, events: seq<Event>)
    requires Run(states, events)
    ensures states[0].queue == []
  {
  }

  lemma Regrouped(l: seq<Task>, q: seq<Task>, j: seq<Task>, k: seq<Task>, r: seq<Task>)
    requires q + j == k + r
    ensures (l + q) + j == (l + k) + r
  {
    assert (l + q) + j == l + (q + j);
    assert (l + k) + r == l + (k + r);
  }

  // ---------- the scan ----------

  /** How many workers a caller has passed in its scan. */
  function Passed(c: Caller, size: nat): nat {
    match c
    case Out => 0
    case Scanning(_, k) => k
    case Trying(_, k) => k
    case Returning(_, k) => if k < size then k + 1 else k
  }

  predicate BusyAt(p: Pool, j: nat) {
    j < |p.workers| && p.workers[j].slot.Holds?
  }

  /** Between states `s` and `i` there was one in which worker `j` had a task. */
  ghost predicate BusyWithin(states: seq<Pool>, s: nat, i: nat, j: nat)
    requires i < |states|
  {
    exists n :: s <= n <= i && BusyAt(states[n], j)
  }

  predicate HasTask(p: Pool, c: nat, t: Task) {
    c < |p.callers| && Carries(p.callers[c], t)
  }

  /** Caller `c` has scanned for task `t` since state `s`, and in that time each of the first `k` workers had a task. */
  ghost predicate SeenBusy(states: seq<Pool>, c: nat, t: Task, s: nat, i: nat, k: nat)
    requires i < |states|
  {
    && s <= i && c < |states[s].callers| && states[s].callers[c] == Scanning(t, 0)
    && (forall n :: s <= n <= i ==> HasTask(states[n], c, t))
    && forall j :: 0 <= j < k ==> BusyWithin(states, s, i, j)
  }

  lemma StepSizes(p: Pool, e: Event)
    requires Enabled(p, e)
    ensures |Step(p, e).workers| == |p.workers| && |Step(p, e).callers| == |p.callers|
  {
  }

  /** A step of a scan: it starts at the first worker, or goes on with the task and passes only a busy worker. */
  lemma StepScan(p: Pool, e: Event, c: nat)
    requires Enabled(p, e) && c < |p.callers| && !Step(p, e).callers[c].Out?
    ensures var q, size := Step(p, e), |p.workers|;
      || q.callers[c] == Scanning(q.callers[c].task, 0)
      || (&& !p.callers[c].Out? && q.callers[c].task == p.callers[c].task
          && (|| Passed(q.callers[c], size) <= Passed(p.callers[c], size)
              || (Passed(q.callers[c], size) == Passed(p.callers[c], size) + 1 &&
                  BusyAt(q, Passed(p.callers[c], size)))))
  {
    hide PoolLocked, WorkerLocked;
  }

  lemma SeenOneMore(states: seq<Pool>, c: nat, t: Task, s: nat, i: nat, i': nat, k: nat, k': nat)
    requires i' == i + 1 < |states| && SeenBusy(states, c, t, s, i, k) && HasTask(states[i'], c, t)
    requires k' <= k || (k' == k + 1 && BusyAt(states[i'], k))
    ensures SeenBusy(states, c, t, s, i', k')
  {
    hide BusyAt, HasTask;
    forall j | 0 <= j < k'
      ensures BusyWithin(states, s, i', j)
    {
      if j < k {
        assert BusyWithin(states, s, i, j);
        var n :| s <= n <= i && BusyAt(states[n], j);
        assert s <= n <= i' && BusyAt(states[n], j);
      } else {
        assert s <= i' <= i' && BusyAt(states[i'], j);
      }
    }
  }

  /** In every run, a caller has found each worker that its scan has passed with a task since the scan began. */
  lemma {:induction false} PassesOnlyBusy(states: seq<Pool>, events: seq<Event>, c: nat, i: nat) returns (s: nat)
    requires Run(states, events) && i < |states| && c < |states[i].callers| && !states[i].callers[c].Out?
    ensures var d := states[i].callers[c];
      SeenBusy(states, c, d.task, s, i, Passed(d, |states[i].workers|))
  {
    hide SeenBusy, Step, Enabled, NewPool;
    s := i;
    if i == 0 {
      AllOutAtFirst(states, events, c);
    } else {
      var p, e, d := states[i - 1], events[i - 1], states[i].callers[c];
      assert Enabled(p, e) && states[i] == Step(p, e);
      StepSizes(p, e);
      StepScan(p, e, c);
      if d == Scanning(d.task, 0) {
        ScanStarts(states, c, i);
      } else {
        s := PassesOnlyBusy(states, events, c, i - 1);
        var size := |p.workers|;
        SeenOneMore(states, c, d.task, s, i - 1, i, Passed(p.callers[c], size), Passed(d, size));
      }
    }
  }

  lemma AllOutAtFirst(states: seq<Pool>, events: seq<Event>, c: nat)
    requires Run(states, events) && c < |states[0].callers|
    ensures states[0].callers[c].Out?
  {
  }

  lemma ScanStarts(states: seq<Pool>, c: nat, i: nat)
    requires i < |states| && c < |states[i].callers| && states[i].callers[c].Scanning? && states[i].callers[c].at == 0
    ensures SeenBusy(states, c, states[i].callers[c].task, i, i, 0)
  {
  }

  lemma SeenFewer(states: seq<Pool>, c: nat, t: Task, s: nat, i: nat, k: nat, k': nat)
    requires i < |states| && SeenBusy(states, c, t, s, i, k) && k' <= k
    ensures SeenBusy(states, c, t, s, i, k')
  {
  }

  lemma JoiningPassed(p: Pool, e: Event)
    requires Enabled(p, e) && Joining(p, e, Step(p, e)) != []
    ensures e.ScanStep? && e.c < |p.callers| && p.callers[e.c].Scanning? && p.callers[e.c].at >= |p.workers|
    ensures Joining(p, e, Step(p, e)) == [p.callers[e.c].task]
  {
    hide PoolLocked, WorkerLocked;
  }

  /** In every run, a task is queued only after every worker was found with a task since its caller began to scan. */
  lemma QueuedWhenAllBusy(states: seq<Pool>, events: seq<Event>, i: nat) returns (s: nat)
    requires Run(states, events) && i < |events| && Joining(states[i], events[i], states[i + 1]) != []
    ensures events[i].ScanStep?
    ensures SeenBusy(states, events[i].c, Joining(states[i], events[i], states[i + 1])[0], s, i, |states[i].workers|)
  {
    hide SeenBusy, Step, Enabled, NewPool, Joining;
    var p, e := states[i], events[i];
    assert Enabled(p, e) && states[i + 1] == Step(p, e);
    JoiningPassed(p, e);
    s := PassesOnlyBusy(states, events, e.c, i);
    SeenFewer(states, e.c, p.callers[e.c].task, s, i, p.callers[e.c].at, |p.workers|);
  }

  /** Where there is no queue, a caller waits only after the same: it has reached the end of its scan. */
  lemma WaitsWhenAllBusy(states: seq<Pool>, events: seq<Event>, c: nat, i: nat) returns (s: nat)
    requires Run(states, events) && i < |states| && c < |states[i].callers|
    requires states[i].callers[c].Returning? && states[i].callers[c].at >= |states[i].workers|
    ensures SeenBusy(states, c, states[i].callers[c].task, s, i, |states[i].workers|)
  {
    hide SeenBusy, Run;
    s := PassesOnlyBusy(states, events, c, i);
    SeenFewer(states, c, states[i].callers[c].task, s, i, states[i].callers[c].at, |states[i].workers|);
  }
}
