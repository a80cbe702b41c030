/** Hand-off of tasks in the thread pools, as a state machine over what callers and workers do under their locks. */
module ThreadPools {

  type Task = nat

  datatype Slot = Empty | Holds(task: Task)

  /** Where a worker's loop is. It owns its lock while Ready or Running; Waiting has given it up. */
  datatype Pc = Ready | Running | Waiting | Notifying | Ended

  datatype Worker = Worker(slot: Slot, go: bool, pc: Pc, notified: bool)

  /** A thread that hands on a task: scanning the workers with the pool's lock, trying one without it, coming back. */
  datatype Caller = Out | Scanning(task: Task, at: nat) | Trying(task: Task, at: nat) | Returning(task: Task, at: nat)

  /** `queued` tells the pool with a queue from the one whose callers wait. The rest is the record of what happened. */
  datatype Pool = Pool(
    queued: bool, workers: seq<Worker>, callers: seq<Caller>, queue: seq<Task>,
    accepted: set<Task>, started: multiset<Task>, finished: multiset<Task>, discarded: multiset<Task>)

  function NewPool(queued: bool, size: nat, callers: nat): Pool {
    Pool(queued, seq(size, _ => Worker(Empty, true, Ready, false)), seq(callers, _ => Out), [], {},
         multiset{}, multiset{}, multiset{})
  }

  predicate WorkerLocked(w: Worker) {
    w.pc == Ready || w.pc == Running
  }

  predicate PoolLocked(p: Pool) {
    exists c :: 0 <= c < |p.callers| && p.callers[c].Scanning?
  }

  // ---------- steps ----------

  /** One turn of a worker's loop that holds the lock: stop, start the task, or wait. */
  function Turn(p: Pool, i: nat): Pool
    requires i < |p.workers|
  {
    var w := p.workers[i];
    if !w.go then
      p.(workers := p.workers[i := w.(slot := Empty, pc := Ended)],
         discarded := if w.slot.Holds? then p.discarded + multiset{w.slot.task} else p.discarded)
    else if w.slot.Holds? then
      p.(workers := p.workers[i := w.(pc := Running)], started := p.started + multiset{w.slot.task})
    else
      p.(workers := p.workers[i := w.(pc := Waiting, notified := false)])
  }

  /** The task has run: the slot is freed and the lock given up, to notify the pool. */
  function Complete(p: Pool, i: nat): Pool
    requires i < |p.workers|
  {
    var w := p.workers[i];
    p.(workers := p.workers[i := w.(slot := Empty, pc := Notifying)],
       finished := if w.slot.Holds? then p.finished + multiset{w.slot.task} else p.finished)
  }

  /** set_task: fills a free slot and notifies the worker. */
  function SetTask(p: Pool, c: nat): Pool
    requires c < |p.callers| && p.callers[c].Trying? && p.callers[c].at < |p.workers|
  {
    var Trying(t, k) := p.callers[c];
    var w := p.workers[k];
    if w.slot.Empty? then
      p.(workers := p.workers[k := w.(slot := Holds(t), notified := true)], callers := p.callers[c := Out])
    else p.(callers := p.callers[c := Returning(t, k)])
  }

  /** One step of the scan over the workers, at whose end the task is queued or the caller waits and starts again. */
  function Scan(p: Pool, c: nat): Pool
    requires c < |p.callers| && p.callers[c].Scanning?
  {
    var Scanning(t, k) := p.callers[c];
    if k < |p.workers| then
      p.(callers := p.callers[c := if p.workers[k].slot.Empty? then Trying(t, k) else Scanning(t, k + 1)])
    else if p.queued then p.(callers := p.callers[c := Out], queue := p.queue + [t])
    else p.(callers := p.callers[c := Returning(t, k)])
  }

  /** Back under the pool's lock after a failed attempt, or after the wait at the end of a scan. */
  function Return(p: Pool, c: nat): Pool
    requires c < |p.callers| && p.callers[c].Returning?
  {
    var Returning(t, k) := p.callers[c];
    p.(callers := p.callers[c := Scanning(t, if k < |p.workers| then k + 1 else 0)])
  }

  datatype Event =
    | Execute(c: nat, task: Task)
    | Dequeue(c: nat)
    | ScanStep(c: nat)
    | TrySet(c: nat)
    | ComeBack(c: nat)
    | Loop(i: nat)
    | Finish(i: nat)
    | IdleNotification(i: nat)
    | WakeUp(i: nat)
    | Stop(i: nat)

  predicate Enabled(p: Pool, e: Event) {
    match e
    case Execute(c, t) => c < |p.callers| && p.callers[c].Out? && t !in p.accepted && !PoolLocked(p)
    case Dequeue(c) => c < |p.callers| && p.callers[c].Out? && p.queue != [] && !PoolLocked(p)
    case ScanStep(c) => c < |p.callers| && p.callers[c].Scanning?
    case TrySet(c) =>
      && c < |p.callers| && p.callers[c].Trying? && p.callers[c].at < |p.workers|
      && !WorkerLocked(p.workers[p.callers[c].at])
    case ComeBack(c) => c < |p.callers| && p.callers[c].Returning? && !PoolLocked(p)
    case Loop(i) => i < |p.workers| && p.workers[i].pc == Ready
    case Finish(i) => i < |p.workers| && p.workers[i].pc == Running
    case IdleNotification(i) => i < |p.workers| && p.workers[i].pc == Notifying && !PoolLocked(p)
    case WakeUp(i) => i < |p.workers| && p.workers[i].pc == Waiting
    case Stop(i) => i < |p.workers|
  }

  function Step(p: Pool, e: Event): Pool
    requires Enabled(p, e)
  {
    match e
    case Execute(c, t) => p.(callers := p.callers[c := Scanning(t, 0)], accepted := p.accepted + {t})
    case Dequeue(c) => p.(callers := p.callers[c := Scanning(p.queue[0], 0)], queue := p.queue[1..])
    case ScanStep(c) => Scan(p, c)
    case TrySet(c) => SetTask(p, c)
    case ComeBack(c) => Return(p, c)
    case Loop(i) => Turn(p, i)
    case Finish(i) => Complete(p, i)
    case IdleNotification(i) => p.(workers := p.workers[i := p.workers[i].(pc := Ready)])
    case WakeUp(i) => p.(workers := p.workers[i := p.workers[i].(pc := Ready)])
    case Stop(i) => p.(workers := p.workers[i := p.workers[i].(go := false)])
  }

  // ---------- where tasks are ----------

  function One(b: bool): nat {
    if b then 1 else 0
  }

  function InSlots(ws: seq<Worker>, t: Task): nat {
    if ws == [] then 0 else InSlots(ws[..|ws| - 1], t) + One(ws[|ws| - 1].slot == Holds(t))
  }

  predicate Runs(w: Worker, t: Task) {
    w.pc == Running && w.slot == Holds(t)
  }

  function RunningIn(ws: seq<Worker>, t: Task): nat {
    if ws == [] then 0 else RunningIn(ws[..|ws| - 1], t) + One(Runs(ws[|ws| - 1], t))
  }

  predicate Carries(c: Caller, t: Task) {
    !c.Out? && c.task == t
  }

  function InTransit(cs: seq<Caller>, t: Task): nat {
    if cs == [] then 0 else InTransit(cs[..|cs| - 1], t) + One(Carries(cs[|cs| - 1], t))
  }

  /** In how many places a task is: queued, handed on, in a worker's slot, finished, or discarded at the stop. */
  function Places(p: Pool, t: Task): nat {
    multiset(p.queue)[t] + InTransit(p.callers, t) + InSlots(p.workers, t) + p.finished[t] + p.discarded[t]
  }

  lemma {:induction false} InSlotsUpdate(ws: seq<Worker>, i: nat, w: Worker, t: Task)
    requires i < |ws|
    ensures InSlots(ws[i := w], t) + One(ws[i].slot == Holds(t)) == InSlots(ws, t) + One(w.slot == Holds(t))
    decreases |ws|
  {
    var p, v := ws[..|ws| - 1], ws[i := w];
    if i < |ws| - 1 {
      InSlotsUpdate(p, i, w, t);
      assert v[..|v| - 1] == p[i := w];
    } else {
      assert v[..|v| - 1] == p;
    }
  }

  lemma {:induction false} RunningInUpdate(ws: seq<Worker>, i: nat, w: Worker, t: Task)
    requires i < |ws|
    ensures RunningIn(ws[i := w], t) + One(Runs(ws[i], t)) == RunningIn(ws, t) + One(Runs(w, t))
    decreases |ws|
  {
    var p, v := ws[..|ws| - 1], ws[i := w];
    if i < |ws| - 1 {
      RunningInUpdate(p, i, w, t);
      assert v[..|v| - 1] == p[i := w];
    } else {
      assert v[..|v| - 1] == p;
    }
  }

  lemma {:induction false} InTransitUpdate(cs: seq<Caller>, i: nat, c: Caller, t: Task)
    requires i < |cs|
    ensures InTransit(cs[i := c], t) + One(Carries(cs[i], t)) == InTransit(cs, t) + One(Carries(c, t))
    decreases |cs|
  {
    var p, v := cs[..|cs| - 1], cs[i := c];
    if i < |cs| - 1 {
      InTransitUpdate(p, i, c, t);
      assert v[..|v| - 1] == p[i := c];
    } else {
      assert v[..|v| - 1] == p;
    }
  }

  // ---------- what every step keeps ----------

  /** Every accepted task is in exactly one place, and no other task anywhere. */
  ghost predicate Conserved(p: Pool) {
    forall t: Task :: Places(p, t) == One(t in p.accepted)
  }

  /** What has been started has finished or is running, each as often as the other. */
  ghost predicate StartsCounted(p: Pool) {
    forall t: Task :: p.started[t] == p.finished[t] + RunningIn(p.workers, t)
  }

  /** A worker that sleeps has been notified in its sleep exactly if its slot is filled; one that runs has a task. */
  predicate NoLostWakeup(p: Pool) {
    forall i :: 0 <= i < |p.workers| ==>
      && (p.workers[i].pc == Waiting ==> (p.workers[i].notified <==> p.workers[i].slot.Holds?))
      && (p.workers[i].pc == Running ==> p.workers[i].slot.Holds?)
  }

  /** At most one thread has the pool's lock. */
  predicate OneScanner(p: Pool) {
    forall c, d :: 0 <= c < d < |p.callers| ==> !(p.callers[c].Scanning? && p.callers[d].Scanning?)
  }

  lemma CallerStep(p: Pool, e: Event, t: Task)
    requires Enabled(p, e) && (e.Execute? || e.Dequeue? || e.ScanStep? || e.ComeBack?)
    ensures Places(Step(p, e), t) == Places(p, t) + if e.Execute? then One(t == e.task) else 0
  {
    hide InSlots, InTransit, PoolLocked;
    var q := Step(p, e);
    InTransitUpdate(p.callers, e.c, q.callers[e.c], t);
    if e.Dequeue? {
      Front(p.queue, t);
    }
  }

  lemma Front(q: seq<Task>, t: Task)
    requires q != []
    ensures multiset(q)[t] == multiset(q[1..])[t] + One(q[0] == t)
  {
    assert q == [q[0]] + q[1..];
  }

  lemma SetStep(p: Pool, e: Event, t: Task)
    requires Enabled(p, e) && e.TrySet?
    ensures Places(Step(p, e), t) == Places(p, t)
  {
    hide InSlots, InTransit, WorkerLocked;
    var q, k := Step(p, e), p.callers[e.c].at;
    InTransitUpdate(p.callers, e.c, q.callers[e.c], t);
    InSlotsUpdate(p.workers, k, q.workers[k], t);
  }

  lemma WorkerStep(p: Pool, e: Event, t: Task)
    requires Enabled(p, e) && (e.Loop? || e.Finish?)
    ensures Places(Step(p, e), t) == Places(p, t) && Step(p, e).accepted == p.accepted
  {
    hide Places, Turn, Complete;
    if e.Loop? {
      TurnStep(p, e.i, t);
    } else {
      CompleteStep(p, e.i, t);
    }
  }

  lemma TurnStep(p: Pool, i: nat, t: Task)
    requires i < |p.workers| && p.workers[i].pc == Ready
    ensures Places(Turn(p, i), t) == Places(p, t) && Turn(p, i).accepted == p.accepted
  {
    hide InSlots, InTransit;
    InSlotsUpdate(p.workers, i, Turn(p, i).workers[i], t);
  }

  lemma CompleteStep(p: Pool, i: nat, t: Task)
    requires i < |p.workers| && p.workers[i].pc == Running
    ensures Places(Complete(p, i), t) == Places(p, t) && Complete(p, i).accepted == p.accepted
  {
    hide InSlots, InTransit;
    InSlotsUpdate(p.workers, i, Complete(p, i).workers[i], t);
  }

  lemma SleepStep(p: Pool, e: Event, t: Task)
    requires Enabled(p, e) && (e.IdleNotification? || e.WakeUp? || e.Stop?)
    ensures Places(Step(p, e), t) == Places(p, t) && Step(p, e).accepted == p.accepted
  {
    hide InSlots, InTransit, PoolLocked;
    InSlotsUpdate(p.workers, e.i, Step(p, e).workers[e.i], t);
  }

  lemma StepConserves(p: Pool, e: Event)
    requires Enabled(p, e) && Conserved(p)
    ensures Conserved(Step(p, e))
  {
    hide Places;
    var q := Step(p, e);
    forall t: Task ensures Places(q, t) == One(t in q.accepted) {
      match e
      case Execute(_, _) => CallerStep(p, e, t);
      case Dequeue(_) => CallerStep(p, e, t);
      case ScanStep(_) => CallerStep(p, e, t);
      case ComeBack(_) => CallerStep(p, e, t);
      case TrySet(_) => SetStep(p, e, t);
      case Loop(_) => WorkerStep(p, e, t);
      case Finish(_) => WorkerStep(p, e, t);
      case _ => SleepStep(p, e, t);
    }
  }

  lemma StepCounts(p: Pool, e: Event)
    requires Enabled(p, e) && StartsCounted(p) && NoLostWakeup(p)
    ensures StartsCounted(Step(p, e))
  {
    hide RunningIn;
    var q := Step(p, e);
    forall t: Task ensures q.started[t] == q.finished[t] + RunningIn(q.workers, t) {
      CountOne(p, e, t);
    }
  }

  lemma CountOne(p: Pool, e: Event, t: Task)
    requires Enabled(p, e) && p.started[t] == p.finished[t] + RunningIn(p.workers, t) && NoLostWakeup(p)
    ensures var q := Step(p, e); q.started[t] == q.finished[t] + RunningIn(q.workers, t)
  {
    if e.Execute? || e.Dequeue? || e.ScanStep? || e.TrySet? || e.ComeBack? {
      hide RunningIn;
      if e.TrySet? {
        var k := p.callers[e.c].at;
        RunningInUpdate(p.workers, k, Step(p, e).workers[k], t);
      }
    } else {
      hide RunningIn, Step, Enabled, NoLostWakeup;
      CountWorker(p, e, t);
    }
  }

  lemma CountWorker(p: Pool, e: Event, t: Task)
    requires Enabled(p, e) && p.started[t] == p.finished[t] + RunningIn(p.workers, t) && NoLostWakeup(p)
    requires !(e.Execute? || e.Dequeue? || e.ScanStep? || e.TrySet? || e.ComeBack?)
    ensures var q := Step(p, e); q.started[t] == q.finished[t] + RunningIn(q.workers, t)
  {
    hide RunningIn;
    RunningInUpdate(p.workers, e.i, Step(p, e).workers[e.i], t);
  }

  lemma StepWakes(p: Pool, e: Event)
    requires Enabled(p, e) && NoLostWakeup(p)
    ensures NoLostWakeup(Step(p, e))
  {
    hide Step, Enabled, NoLostWakeup;
    if e.Execute? || e.Dequeue? || e.ScanStep? || e.TrySet? || e.ComeBack? {
      CallersWake(p, e);
    } else {
      WorkersWake(p, e);
    }
  }

  lemma CallersWake(p: Pool, e: Event)
    requires Enabled(p, e) && NoLostWakeup(p)
    requires e.Execute? || e.Dequeue? || e.ScanStep? || e.TrySet? || e.ComeBack?
    ensures NoLostWakeup(Step(p, e))
  {
  }

  lemma WorkersWake(p: Pool, e: Event)
    requires Enabled(p, e) && NoLostWakeup(p)
    requires !(e.Execute? || e.Dequeue? || e.ScanStep? || e.TrySet? || e.ComeBack?)
    ensures NoLostWakeup(Step(p, e))
  {
  }

  lemma StepScans(p: Pool, e: Event)
    requires Enabled(p, e) && OneScanner(p)
    ensures OneScanner(Step(p, e))
  {
  }

  ghost predicate Inv(p: Pool) {
    Conserved(p) && StartsCounted(p) && NoLostWakeup(p) && OneScanner(p)
  }

  // ---------- every run ----------

  ghost predicate Run(states: seq<Pool>, events: seq<Event>) {
    && |states| == |events| + 1
    && (exists queued: bool, size: nat, callers: nat :: states[0] == NewPool(queued, size, callers))
    && forall i :: 0 <= i < |events| ==> Enabled(states[i], events[i]) && states[i + 1] == Step(states[i], events[i])
  }

  lemma {:induction false} StartsEmpty(queued: bool, size: nat, callers: nat)
    ensures Inv(NewPool(queued, size, callers))
  {
    var p := NewPool(queued, size, callers);
    forall t: Task ensures InSlots(p.workers, t) == 0 && RunningIn(p.workers, t) == 0 && InTransit(p.callers, t) == 0 {
      NothingYet(p.workers, p.callers, t);
    }
  }

  lemma {:induction false} NothingYet(ws: seq<Worker>, cs: seq<Caller>, t: Task)
    requires forall i :: 0 <= i < |ws| ==> ws[i].slot == Empty
    requires forall i :: 0 <= i < |cs| ==> cs[i] == Out
    ensures InSlots(ws, t) == 0 && RunningIn(ws, t) == 0 && InTransit(cs, t) == 0
    decreases |ws| + |cs|
  {
    if ws != [] {
      NothingYet(ws[..|ws| - 1], cs, t);
    } else if cs != [] {
      NothingYet(ws, cs[..|cs| - 1], t);
    }
  }

  lemma {:induction false} RunKeeps(states: seq<Pool>, events: seq<Event>, i: nat)
    requires Run(states, events) && i < |states|
    ensures Inv(states[i])
  {
    hide Conserved, StartsCounted, NoLostWakeup, OneScanner, Step, Enabled, NewPool;
    if i == 0 {
      var queued: bool, size: nat, callers: nat :| states[0] == NewPool(queued, size, callers);
      StartsEmpty(queued, size, callers);
    } else {
      RunKeeps(states, events, i - 1);
      var p, e := states[i - 1], events[i - 1];
      assert Enabled(p, e) && states[i] == Step(p, e);
      StepConserves(p, e);
      StepCounts(p, e);
      StepWakes(p, e);
      StepScans(p, e);
    }
  }

  /** In every run each accepted task is in exactly one place, nothing else is anywhere, no task is started twice, and
      what has finished was started. */
  lemma RunAtMostOnce(states: seq<Pool>, events: seq<Event>, i: nat, t: Task)
    requires Run(states, events) && i < |states|
    ensures Places(states[i], t) == One(t in states[i].accepted)
    ensures states[i].started[t] <= 1 && states[i].finished[t] <= states[i].started[t]
  {
    hide NoLostWakeup, OneScanner, Step, Enabled, NewPool, InSlots, RunningIn, InTransit;
    RunKeeps(states, events, i);
    RunningHasSlot(states[i].workers, t);
  }

  lemma {:induction false} RunningHasSlot(ws: seq<Worker>, t: Task)
    ensures RunningIn(ws, t) <= InSlots(ws, t)
  {
    if ws != [] {
      RunningHasSlot(ws[..|ws| - 1], t);
    }
  }
}
