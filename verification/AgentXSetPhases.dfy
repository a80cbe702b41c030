/** What each step of a distributed SET sends: the phase it leads to, and one PDU to each session of that phase. */
module AgentXSetPhases {
  import opened AgentXSet

  // ---------- PDUs that a step issues ----------

  predicate New(s: State, t: State, p: nat, k: Kind) {
    p in t.issued && p !in s.issued && t.issued[p] == k && p in t.to
  }

  /** The new PDUs of kind `k` go to the sessions of the list, one to each, however often it names them. */
  ghost predicate OneEach(s: State, t: State, k: Kind, sessions: seq<nat>) {
    && (forall p :: New(s, t, p, k) ==> t.to[p] in sessions)
    && (forall x :: x in sessions ==> exists p :: New(s, t, p, k) && t.to[p] == x)
    && (forall p, q :: New(s, t, p, k) && New(s, t, q, k) && t.to[p] == t.to[q] ==> p == q)
  }

  /** The sessions that get a PDU of each kind. */
  datatype Lists = Lists(tests: seq<nat>, commits: seq<nat>, undos: seq<nat>, cleanups: seq<nat>)

  ghost predicate Issues(s: State, t: State, l: Lists) {
    && OneEach(s, t, TestSet, l.tests) && OneEach(s, t, CommitSet, l.commits)
    && OneEach(s, t, UndoSet, l.undos) && OneEach(s, t, CleanupSet, l.cleanups)
  }

  const NOTHING := Lists([], [], [], [])

  function Only(k: Kind, sessions: seq<nat>): Lists {
    match k
    case TestSet => NOTHING.(tests := sessions)
    case CommitSet => NOTHING.(commits := sessions)
    case UndoSet => NOTHING.(undos := sessions)
    case CleanupSet => NOTHING.(cleanups := sessions)
  }

  /** The record only grows. */
  ghost predicate Later(s: State, t: State) {
    forall p: nat ::
      && (p in s.issued ==> p in t.issued && t.issued[p] == s.issued[p])
      && (p in s.to ==> p in t.to && t.to[p] == s.to[p])
      && (p in s.issued <==> p in s.to) && (p in t.issued <==> p in t.to)
  }

  function Joined(a: seq<nat>, b: seq<nat>): seq<nat> {
    if a == [] then b else a
  }

  lemma NoneBefore(s: State, u: State, t: State, k: Kind, l: seq<nat>)
    requires Later(s, u) && Later(u, t) && OneEach(s, u, k, []) && OneEach(u, t, k, l)
    ensures OneEach(s, t, k, l)
  {
    assert forall p :: !New(s, u, p, k);
    forall p ensures New(s, t, p, k) == New(u, t, p, k) {
    }
  }

  lemma NoneAfter(s: State, u: State, t: State, k: Kind, l: seq<nat>)
    requires Later(s, u) && Later(u, t) && OneEach(s, u, k, l) && OneEach(u, t, k, [])
    ensures OneEach(s, t, k, l)
  {
    assert forall p :: !New(u, t, p, k);
    forall p ensures New(s, t, p, k) == New(s, u, p, k) {
    }
    forall p | New(s, t, p, k) ensures t.to[p] == u.to[p] {
    }
  }

  lemma EachJoins(s: State, u: State, t: State, k: Kind, a: seq<nat>, b: seq<nat>)
    requires Later(s, u) && Later(u, t) && OneEach(s, u, k, a) && OneEach(u, t, k, b) && (a == [] || b == [])
    ensures OneEach(s, t, k, Joined(a, b))
  {
    hide OneEach, Later;
    if a == [] {
      NoneBefore(s, u, t, k, b);
    } else {
      NoneAfter(s, u, t, k, a);
    }
  }

  function Join(a: Lists, b: Lists): Lists {
    Lists(Joined(a.tests, b.tests), Joined(a.commits, b.commits), Joined(a.undos, b.undos),
          Joined(a.cleanups, b.cleanups))
  }

  predicate Apart(a: Lists, b: Lists) {
    && (a.tests == [] || b.tests == []) && (a.commits == [] || b.commits == [])
    && (a.undos == [] || b.undos == []) && (a.cleanups == [] || b.cleanups == [])
  }

  lemma IssuesJoin(s: State, u: State, t: State, a: Lists, b: Lists)
    requires Later(s, u) && Later(u, t) && Issues(s, u, a) && Issues(u, t, b) && Apart(a, b)
    ensures Later(s, t) && Issues(s, t, Join(a, b))
  {
    hide OneEach;
    EachJoins(s, u, t, TestSet, a.tests, b.tests);
    EachJoins(s, u, t, CommitSet, a.commits, b.commits);
    EachJoins(s, u, t, UndoSet, a.undos, b.undos);
    EachJoins(s, u, t, CleanupSet, a.cleanups, b.cleanups);
  }

  /** Only the record of issued PDUs matters. */
  lemma SameIssues(s: State, t: State, s': State, t': State, l: Lists)
    requires Issues(s, t, l) && s'.issued == s.issued && s'.to == s.to && t'.issued == t.issued && t'.to == t.to
    ensures Issues(s', t', l)
  {
    hide OneEach;
    SameEach(s, t, s', t', TestSet, l.tests);
    SameEach(s, t, s', t', CommitSet, l.commits);
    SameEach(s, t, s', t', UndoSet, l.undos);
    SameEach(s, t, s', t', CleanupSet, l.cleanups);
  }

  lemma SameEach(s: State, t: State, s': State, t': State, k: Kind, l: seq<nat>)
    requires OneEach(s, t, k, l) && s'.issued == s.issued && s'.to == s.to && t'.issued == t.issued && t'.to == t.to
    ensures OneEach(s', t', k, l)
  {
    assert forall p :: New(s', t', p, k) == New(s, t, p, k);
  }

  lemma IssuesNothing(s: State, t: State)
    requires t.issued == s.issued && t.to == s.to
    ensures Issues(s, t, NOTHING)
  {
  }

  // ---------- one phase ----------

  predicate AllSent(s: State) {
    forall p :: p in s.queue ==> s.queue[p].sent
  }

  /** What is queued and not yet sent is what was issued since `s`, all of kind `k`. */
  ghost predicate JustQueued(s: State, t: State, k: Kind) {
    && (forall p: nat :: p in t.queue ==> if t.queue[p].sent then p in s.queue else New(s, t, p, k))
    && (forall p: nat :: p in t.issued && p !in s.issued ==>
                           New(s, t, p, k) && p in t.queue && t.queue[p] == Pdu(t.to[p], k, false))
  }

  function WithNew(u: State, k: Kind, x: nat): State {
    u.(queue := u.queue[u.next := Pdu(x, k, false)], issued := u.issued[u.next := k], to := u.to[u.next := x],
       next := u.next + 1)
  }

  predicate NextFree(s: State, u: State) {
    u.next !in u.issued && u.next !in u.queue && u.next !in u.to && u.next !in s.issued && u.next !in s.to
  }

  lemma NewLater(s: State, u: State, k: Kind, x: nat)
    requires NextFree(s, u) && Later(s, u)
    ensures Later(s, WithNew(u, k, x))
  {
  }

  lemma NewIds(s: State, u: State, k: Kind, x: nat)
    requires NextFree(s, u)
    ensures var v := WithNew(u, k, x);
      && New(s, v, u.next, k) && v.to[u.next] == x
      && forall p :: p != u.next ==>
           New(s, v, p, k) == New(s, u, p, k) && (p in u.to ==> p in v.to && v.to[p] == u.to[p])
  {
  }

  lemma NewQueued(s: State, u: State, k: Kind, x: nat)
    requires NextFree(s, u) && JustQueued(s, u, k)
    ensures JustQueued(s, WithNew(u, k, x), k)
  {
    hide New;
    var v := WithNew(u, k, x);
    NewIds(s, u, k, x);
    forall p: nat | p in v.issued && p !in s.issued
      ensures New(s, v, p, k) && p in v.queue && p in v.to && v.queue[p] == Pdu(v.to[p], k, false)
    {
      if p != u.next {
        assert p in u.issued;
        NewHas(s, u, p, k);
      }
      NewHas(s, v, p, k);
    }
  }

  lemma NewHas(s: State, t: State, p: nat, k: Kind)
    requires New(s, t, p, k)
    ensures p in t.to && p in t.issued && p !in s.issued && t.issued[p] == k
  {
  }

  /** A session that none of the new PDUs went to has no unsent one. */
  lemma NoneFor(s: State, u: State, k: Kind, x: nat)
    requires JustQueued(s, u, k) && !HasUnsent(u.queue, x)
    ensures forall p :: New(s, u, p, k) ==> u.to[p] != x
  {
    forall p | New(s, u, p, k) ensures u.to[p] != x {
      assert u.queue[p] == Pdu(u.to[p], k, false);
    }
  }

  lemma AddedEach(s: State, u: State, k: Kind, l: seq<nat>, x: nat)
    requires NextFree(s, u) && OneEach(s, u, k, l) && forall p :: New(s, u, p, k) ==> u.to[p] != x
    ensures OneEach(s, WithNew(u, k, x), k, l + [x])
  {
    var v := WithNew(u, k, x);
    NewIds(s, u, k, x);
    forall y | y in l + [x] ensures exists p :: New(s, v, p, k) && v.to[p] == y {
      if y in l && y != x {
        var p :| New(s, u, p, k) && u.to[p] == y;
        assert New(s, v, p, k) && v.to[p] == y;
      }
    }
    forall p | New(s, v, p, k) ensures v.to[p] in l + [x] {
      assert p != u.next ==> New(s, u, p, k);
    }
    forall p, q | New(s, v, p, k) && New(s, v, q, k) && v.to[p] == v.to[q] ensures p == q {
      assert p != u.next ==> New(s, u, p, k);
      assert q != u.next ==> New(s, u, q, k);
    }
  }

  lemma JoinsEach(s: State, u: State, k: Kind, l: seq<nat>, x: nat)
    requires JustQueued(s, u, k) && OneEach(s, u, k, l) && HasUnsent(u.queue, x) && Recorded(u)
    ensures OneEach(s, u, k, l + [x])
  {
    var p :| p in u.queue && u.queue[p].session == x && !u.queue[p].sent;
    assert New(s, u, p, k) && u.to[p] == x;
  }

  lemma AddOneEach(s: State, u: State, k: Kind, l: seq<nat>, x: nat)
    requires Recorded(s) && Recorded(u) && Later(s, u) && JustQueued(s, u, k) && OneEach(s, u, k, l)
    ensures var v := AddSetSubrequest(u, k, x);
      Recorded(v) && Later(s, v) && JustQueued(s, v, k) && OneEach(s, v, k, l + [x])
  {
    hide HasUnsent, Recorded, OneEach, JustQueued, Later, New;
    AddOneRecorded(u, k, x);
    if HasUnsent(u.queue, x) {
      JoinsEach(s, u, k, l, x);
    } else {
      Free(s, u);
      NoneFor(s, u, k, x);
      NewLater(s, u, k, x);
      NewQueued(s, u, k, x);
      AddedEach(s, u, k, l, x);
    }
  }

  lemma Free(s: State, u: State)
    requires Recorded(u) && Later(s, u)
    ensures NextFree(s, u)
  {
  }

  lemma {:induction false} AddAllEach(s: State, k: Kind, l: seq<nat>)
    requires Recorded(s) && AllSent(s)
    ensures var t := AddAll(s, k, l);
      Recorded(t) && Later(s, t) && JustQueued(s, t, k) && OneEach(s, t, k, l)
    decreases |l|
  {
    hide AddSetSubrequest;
    if l == [] {
      assert forall p :: !New(s, s, p, k);
    } else {
      hide Recorded, Later, JustQueued, OneEach;
      var n := |l| - 1;
      AddAllEach(s, k, l[..n]);
      AddOneEach(s, AddAll(s, k, l[..n]), k, l[..n], l[n]);
      assert l[..n] + [l[n]] == l;
    }
  }

  lemma OthersNone(s: State, t: State, k: Kind, j: Kind)
    requires JustQueued(s, t, k) && j != k
    ensures OneEach(s, t, j, [])
  {
    assert forall p :: !New(s, t, p, j);
  }

  lemma OnlyIssues(s: State, t: State, k: Kind, l: seq<nat>)
    requires JustQueued(s, t, k) && OneEach(s, t, k, l)
    ensures Issues(s, t, Only(k, l))
  {
    hide OneEach, JustQueued;
    forall j: Kind | j != k ensures OneEach(s, t, j, []) {
      OthersNone(s, t, k, j);
    }
  }

  lemma QueueGrows(s: State, t: State, k: Kind, l: seq<nat>)
    requires JustQueued(s, t, k) && OneEach(s, t, k, l) && MorePdus(s, t, k)
    ensures t.queue == map[] <==> s.queue == map[] && l == []
  {
    if l != [] {
      assert l[0] in l;
      var p :| New(s, t, p, k) && t.to[p] == l[0];
      assert p in t.queue;
    } else {
      assert forall p :: !New(s, t, p, k);
    }
  }

  /** The work of one phase issues one PDU of its kind to each session, and nothing else. */
  lemma PerformEach(s: State, k: Kind, w: Work)
    requires Recorded(s) && AllSent(s)
    ensures var t := Perform(s, k, w);
      && Recorded(t) && Later(s, t) && JustQueued(s, t, k) && Issues(s, t, Only(k, w.sessions))
      && t.phase == s.phase && t.answered == s.answered && (t.queue == map[] <==> s.queue == map[] && w.sessions == [])
  {
    hide AddAll, Recorded, Later, JustQueued, OneEach, Issues, MorePdus;
    var u, t := AddAll(s, k, w.sessions), Perform(s, k, w);
    AddAllEach(s, k, w.sessions);
    AddAllKeeps(s, k, w.sessions);
    QueueGrows(s, u, k, w.sessions);
    OnlyIssues(s, u, k, w.sessions);
    SameIssues(s, u, s, t, Only(k, w.sessions));
    SameQueued(s, u, t, k);
  }

  lemma SameQueued(s: State, u: State, t: State, k: Kind)
    requires t == u.(error := t.error, outstanding := t.outstanding)
    ensures JustQueued(s, u, k) ==> JustQueued(s, t, k)
    ensures Later(s, u) ==> Later(s, t)
    ensures Recorded(u) ==> Recorded(t)
  {
    assert forall p :: New(s, t, p, k) == New(s, u, p, k);
  }

  /** Every new PDU is queued and not yet sent; with `cancelled`, TestSets have left the queue again. */
  ghost predicate Placed(s: State, t: State, cancelled: bool) {
    forall p: nat :: p in t.issued && p !in s.issued ==>
                       p in t.to && if cancelled && t.issued[p] == TestSet then p !in t.queue
                                    else p in t.queue && t.queue[p] == Pdu(t.to[p], t.issued[p], false)
  }

  /** From `s` to `t` the PDUs of `l` were issued, and all of them wait to be sent. */
  ghost predicate Worked(s: State, t: State, l: Lists) {
    Recorded(t) && Later(s, t) && Issues(s, t, l) && Placed(s, t, false)
  }

  lemma QueuedPlaced(s: State, t: State, k: Kind)
    requires JustQueued(s, t, k)
    ensures Placed(s, t, false)
  {
  }

  /** Work in phase `phase`. */
  lemma PhaseWork(s: State, phase: Phase, k: Kind, w: Work)
    requires Recorded(s) && AllSent(s)
    ensures var t := Perform(s.(phase := phase), k, w);
      && Worked(s, t, Only(k, w.sessions)) && t.phase == phase && t.answered == s.answered
      && (t.queue == map[] <==> s.queue == map[] && w.sessions == [])
  {
    hide Perform, Later, JustQueued, OneEach, Issues, Placed;
    var c := s.(phase := phase);
    assert Recorded(c);
    PerformEach(c, k, w);
    var t := Perform(c, k, w);
    QueuedPlaced(c, t, k);
    SameIssues(c, t, s, t, Only(k, w.sessions));
    SamePlaced(c, s, t);
  }

  lemma SamePlaced(c: State, s: State, t: State)
    requires c.issued == s.issued && c.to == s.to
    ensures Placed(c, t, false) ==> Placed(s, t, false)
    ensures Later(c, t) ==> Later(s, t)
  {
  }

  lemma OutstandingWorked(s: State, t: State, l: Lists, n: int)
    requires Worked(s, t, l)
    ensures Worked(s, t.(outstanding := n), l)
  {
    hide OneEach, Issues;
    SameIssues(s, t, s, t.(outstanding := n), l);
  }

  /** Where the phases lead from the start of the commit phase, with nothing outstanding. */
  function CommitPhase(plan: Plan): Phase {
    if plan.commit.sessions != [] then Commit else if plan.commit.error then Undo else Cleanup
  }

  function CommitLists(plan: Plan): Lists {
    if plan.commit.sessions != [] then Only(CommitSet, plan.commit.sessions)
    else if plan.commit.error then Only(UndoSet, plan.undo.sessions)
    else Only(CleanupSet, plan.cleanup.sessions)
  }

  lemma CleanupWork(s: State, w: Work)
    requires Recorded(s) && AllSent(s)
    ensures Worked(s, EndCleanup(s, w), Only(CleanupSet, w.sessions)) && EndCleanup(s, w).phase == Cleanup
  {
    hide Perform, Worked, Recorded;
    PhaseWork(s, Cleanup, CleanupSet, w);
    OutstandingWorked(s, Perform(s.(phase := Cleanup), CleanupSet, w), Only(CleanupSet, w.sessions), 0);
  }

  /** The undo phase. */
  lemma UndoWork(s: State, plan: Plan)
    requires Recorded(s) && AllSent(s) && s.queue == map[]
    ensures var t := AfterUndo(Perform(s.(phase := Undo), UndoSet, plan.undo));
      && Worked(s, t, Only(UndoSet, plan.undo.sessions)) && t.phase == Undo
      && (t.queue == map[] <==> plan.undo.sessions == [])
  {
    hide Perform, Worked, Recorded;
    var t, l := Perform(s.(phase := Undo), UndoSet, plan.undo), Only(UndoSet, plan.undo.sessions);
    PhaseWork(s, Undo, UndoSet, plan.undo);
    OutstandingWorked(s, t, l, 0);
    OutstandingWorked(s, t, l, t.outstanding + 1);
  }

  lemma CommitEndWork(s: State, plan: Plan)
    requires Recorded(s) && AllSent(s) && s.queue == map[]
    ensures var t := AfterCommit(s, plan);
      && Worked(s, t, if s.error then Only(UndoSet, plan.undo.sessions) else Only(CleanupSet, plan.cleanup.sessions))
      && t.phase == if s.error then Undo else Cleanup
  {
    hide Perform, Worked, Recorded, EndCleanup, AfterUndo;
    if s.error {
      UndoWork(s, plan);
    } else {
      CleanupWork(s, plan.cleanup);
    }
  }

  /** Nothing was issued on the way to `u`. */
  lemma WorkedOn(s: State, u: State, t: State, l: Lists)
    requires u.issued == s.issued && u.to == s.to && Worked(u, t, l)
    ensures Worked(s, t, l)
  {
    hide OneEach, Issues;
    SameIssues(u, t, s, t, l);
    SamePlaced(u, s, t);
  }

  lemma CommitWork(s: State, plan: Plan)
    requires Recorded(s) && AllSent(s) && s.queue == map[] && !s.error
    ensures var t := AfterPrepare(s, plan); Worked(s, t, CommitLists(plan)) && t.phase == CommitPhase(plan)
  {
    hide Perform, Worked, AfterCommit, AllSent;
    var t := Perform(s.(phase := Commit), CommitSet, plan.commit);
    var u := t.(outstanding := t.outstanding + 1);
    PhaseWork(s, Commit, CommitSet, plan.commit);
    OutstandingWorked(s, t, Only(CommitSet, plan.commit.sessions), t.outstanding + 1);
    CommitError(s, plan);
    if plan.commit.sessions != [] {
      PendingCommit(u, plan);
    } else {
      NoCommit(s, plan);
      assert AllSent(u) by {
        EmptySent(u);
      }
      assert Recorded(u) by {
        WorkedRecorded(s, u, Only(CommitSet, plan.commit.sessions));
      }
      CommitEndWork(u, plan);
      WorkedOn(s, u, AfterCommit(u, plan), CommitLists(plan));
    }
  }

  lemma CommitError(s: State, plan: Plan)
    ensures Perform(s.(phase := Commit), CommitSet, plan.commit).error == (s.error || plan.commit.error)
  {
  }

  lemma PendingCommit(u: State, plan: Plan)
    requires u.queue != map[]
    ensures AfterCommit(u, plan) == u
  {
  }

  lemma NoCommit(s: State, plan: Plan)
    requires plan.commit.sessions == []
    ensures var t := Perform(s.(phase := Commit), CommitSet, plan.commit); t.issued == s.issued && t.to == s.to
  {
  }

  lemma EmptySent(u: State)
    requires u.queue == map[]
    ensures AllSent(u)
  {
  }

  lemma WorkedRecorded(s: State, u: State, l: Lists)
    requires Worked(s, u, l)
    ensures Recorded(u)
  {
  }

  // ---------- one pass through the phases ----------

  /** The phase that a pass leads to, and the sessions that get PDUs on the way, from the phase it starts in, whether an
      error is recorded, and whether a PDU is outstanding. */
  function NextPhase(phase: Phase, error: bool, waiting: bool, plan: Plan): Phase {
    match phase
    case Default =>
      if plan.test.sessions != [] && !plan.test.failed then Prepare
      else if plan.test.error then Cleanup else CommitPhase(plan)
    case Prepare => if error then Cleanup else if waiting then Prepare else CommitPhase(plan)
    case Commit => if waiting then Commit else if error then Undo else Cleanup
    case _ => phase
  }

  function Asked(phase: Phase, error: bool, waiting: bool, plan: Plan): Lists {
    var cleanups := Only(CleanupSet, plan.cleanup.sessions);
    match phase
    case Default =>
      var tests := Only(TestSet, plan.test.sessions);
      if plan.test.sessions != [] && !plan.test.failed then tests
      else if plan.test.error then Join(tests, cleanups) else CommitLists(plan)
    case Prepare => if error then cleanups else if waiting then NOTHING else CommitLists(plan)
    case Commit => if waiting then NOTHING else if error then Only(UndoSet, plan.undo.sessions) else cleanups
    case _ => NOTHING
  }

  /** Like `Worked`, where a failed test phase has cancelled its TestSets. */
  ghost predicate Passed(s: State, t: State, l: Lists, cancelled: bool) {
    Recorded(t) && Later(s, t) && Issues(s, t, l) && Placed(s, t, cancelled)
  }

  lemma WorkedPassed(s: State, t: State, l: Lists, cancelled: bool)
    requires Worked(s, t, l) && (cancelled ==> l.tests == [])
    ensures Passed(s, t, l, cancelled)
  {
    if cancelled {
      assert forall p: nat :: !New(s, t, p, TestSet);
      assert forall p: nat ::
        p in t.issued && p !in s.issued && t.issued[p] == TestSet && p in t.to ==> New(s, t, p, TestSet);
    }
  }

  lemma NothingPassed(s: State, t: State, cancelled: bool)
    requires Recorded(s) && t == s.(outstanding := t.outstanding)
    ensures Passed(s, t, NOTHING, cancelled)
  {
    IssuesNothing(s, t);
  }

  /** The tests have failed: what was queued is cancelled, and the cleanup follows. */
  lemma CancelledWork(s: State, plan: Plan)
    requires Recorded(s) && AllSent(s) && s.queue == map[] && plan.test.failed
    ensures var u := StartPrepare(s, plan.test);
      var t := EndCleanup(u, plan.cleanup);
      Passed(s, t, Join(Only(TestSet, plan.test.sessions), Only(CleanupSet, plan.cleanup.sessions)), true)
  {
    hide Perform, Issues, OneEach, Later;
    var v, tests := Perform(s.(phase := Prepare), TestSet, plan.test), Only(TestSet, plan.test.sessions);
    PhaseWork(s, Prepare, TestSet, plan.test);
    var u := v.(queue := map[]);
    assert u == StartPrepare(s, plan.test);
    Cancelled(v);
    SameIssues(s, v, s, u, tests);
    assert Later(s, u) by {
      SameLater(s, v, u);
    }
    CleanupWork(u, plan.cleanup);
    var t := EndCleanup(u, plan.cleanup);
    IssuesJoin(s, u, t, tests, Only(CleanupSet, plan.cleanup.sessions));
    PerformKeeps(s.(phase := Prepare), TestSet, plan.test);
    CancelledPlaced(s, v, u, plan.cleanup);
  }

  lemma Cancelled(v: State)
    requires Recorded(v)
    ensures var u := v.(queue := map[]); Recorded(u) && AllSent(u)
  {
  }

  lemma SameLater(s: State, v: State, u: State)
    requires Later(s, v) && u.issued == v.issued && u.to == v.to
    ensures Later(s, u)
  {
  }

  lemma CancelledPlaced(s: State, v: State, u: State, w: Work)
    requires Recorded(u) && u.queue == map[] && u.issued == v.issued && u.to == v.to
    requires Placed(s, v, false) && forall p :: p in v.issued && p !in s.issued ==> v.issued[p] == TestSet
    requires Placed(u, EndCleanup(u, w), false) && Recorded(EndCleanup(u, w)) && Later(u, EndCleanup(u, w))
    ensures Placed(s, EndCleanup(u, w), true)
  {
    hide Perform;
    PerformKeeps(u.(phase := Cleanup), CleanupSet, w);
    var t := EndCleanup(u, w);
    forall p: nat | p in t.issued && p !in s.issued
      ensures p in t.to && if t.issued[p] == TestSet then p !in t.queue
                           else p in t.queue && t.queue[p] == Pdu(t.to[p], t.issued[p], false)
    {
      if p in u.issued {
        assert t.issued[p] == TestSet;
      }
    }
  }

  lemma DefaultWork(s: State, plan: Plan)
    requires Inv(s) && s.phase == Default && !s.answered && Sensible(plan)
    ensures var t := ProcessSet(s, plan);
      && t.phase == NextPhase(Default, false, false, plan)
      && Passed(s, t, Asked(Default, false, false, plan), plan.test.failed)
  {
    hide Perform, Worked, Recorded, Passed, AfterPrepare, Inv;
    Starts(s);
    var v, tests := Perform(s.(phase := Prepare), TestSet, plan.test), Only(TestSet, plan.test.sessions);
    PhaseWork(s, Prepare, TestSet, plan.test);
    TestError(s, plan);
    var u := StartPrepare(s, plan.test);
    if plan.test.failed {
      CancelledWork(s, plan);
      PrepareError(u, plan);
    } else {
      assert u == v;
      if plan.test.sessions != [] {
        WorkedPassed(s, v, tests, false);
      } else {
        NoTests(s, plan);
        EmptySent(u);
        WorkedRecorded(s, u, tests);
        if plan.test.error {
          CleanupWork(u, plan.cleanup);
          PrepareError(u, plan);
        } else {
          CommitWork(u, plan);
        }
        WorkedOn(s, u, AfterPrepare(u, plan), Asked(Default, false, false, plan));
        WorkedPassed(s, AfterPrepare(u, plan), Asked(Default, false, false, plan), false);
      }
    }
  }

  lemma Starts(s: State)
    requires Inv(s) && s.phase == Default
    ensures Recorded(s) && s.queue == map[] && !s.error && AllSent(s)
  {
  }

  lemma TestError(s: State, plan: Plan)
    ensures Perform(s.(phase := Prepare), TestSet, plan.test).error == (s.error || plan.test.error)
  {
  }

  lemma NoTests(s: State, plan: Plan)
    requires plan.test.sessions == []
    ensures var t := Perform(s.(phase := Prepare), TestSet, plan.test); t.issued == s.issued && t.to == s.to
  {
  }

  lemma PrepareError(u: State, plan: Plan)
    requires u.error
    ensures AfterPrepare(u, plan) == EndCleanup(u, plan.cleanup) && EndCleanup(u, plan.cleanup).phase == Cleanup
  {
    hide Perform;
    PerformSame(u.(phase := Cleanup), CleanupSet, plan.cleanup);
  }

  lemma ProcessWork(s: State, plan: Plan)
    requires Inv(s) && AllSent(s) && !s.answered && Sensible(plan)
    ensures var t := ProcessSet(s, plan);
      && t.phase == NextPhase(s.phase, s.error, s.queue != map[], plan)
      && Passed(s, t, Asked(s.phase, s.error, s.queue != map[], plan), s.phase == Default && plan.test.failed)
  {
    hide Perform, Worked, Recorded, Passed, Inv, AfterCommit, AfterPrepare, StartPrepare, EndCleanup, AllSent;
    var t, l := ProcessSet(s, plan), Asked(s.phase, s.error, s.queue != map[], plan);
    assert Recorded(s) by {
      InvRecorded(s);
    }
    match s.phase
    case Default =>
      Starts(s);
      DefaultWork(s, plan);
    case Prepare =>
      if s.error {
        PrepareError(s, plan);
        CleanupWork(s, plan.cleanup);
        WorkedPassed(s, t, l, false);
      } else if s.queue != map[] {
        PrepareWaits(s, plan);
        NothingPassed(s, s, false);
      } else {
        CommitWork(s, plan);
        WorkedPassed(s, t, l, false);
      }
    case Commit =>
      if s.queue != map[] {
        PendingCommit(s, plan);
        NothingPassed(s, s, false);
      } else {
        CommitEndWork(s, plan);
        WorkedPassed(s, t, l, false);
      }
    case _ =>
      NothingPassed(s, t, false);
  }

  lemma InvRecorded(s: State)
    requires Inv(s)
    ensures Recorded(s)
  {
  }

  lemma PrepareWaits(s: State, plan: Plan)
    requires !s.error && s.queue != map[]
    ensures AfterPrepare(s, plan) == s
  {
  }

  // ---------- one step ----------

  /** What became of the new PDUs: a CleanupSet is sent and not waited for, a cancelled TestSet is dropped unsent, and
      any other PDU is sent and outstanding. */
  ghost predicate Delivered(s: State, t: State, cancelled: bool) {
    forall p: nat :: p in t.issued && p !in s.issued ==>
      && p in t.to
      && if t.issued[p] == CleanupSet || (cancelled && t.issued[p] == TestSet) then p !in t.queue
         else p in t.queue && t.queue[p] == Pdu(t.to[p], t.issued[p], true)
  }

  lemma FinalizeDelivers(s: State, t: State, l: Lists, cancelled: bool)
    requires Passed(s, t, l, cancelled)
    ensures Delivered(s, Finalize(t), cancelled) && Issues(s, Finalize(t), l) && AllSent(Finalize(t))
    ensures Finalize(t).phase == t.phase
  {
    hide Issues, OneEach, Recorded, Later;
    SameIssues(s, t, s, Finalize(t), l);
    FinalizeSends(t);
  }

  lemma FinalizeSends(t: State)
    ensures var u := Finalize(t);
      && u.issued == t.issued && u.to == t.to && u.phase == t.phase && AllSent(u)
      && forall p: nat ::
           if p in t.queue && (t.queue[p].sent || t.queue[p].kind != CleanupSet) then
             p in u.queue && u.queue[p] == t.queue[p].(sent := true)
           else p !in u.queue
  {
  }

  /** The plan of an event that a request not yet answered works on. */
  function PlanOf(e: Event): Plan
    requires !e.Invalid?
  {
    match e
    case Arrives(plan) => plan
    case Response(_, _, _, plan) => plan
  }

  /** Whether an error is recorded, and whether a PDU is outstanding, once the response has been taken in. */
  predicate ErrorNow(s: State, e: Event) {
    s.error || (e.Response? && !e.ok)
  }

  predicate WaitingNow(s: State, e: Event) {
    if e.Response? then s.queue.Keys != {e.p} else s.queue != map[]
  }

  /** Every step of an unanswered request leads to the next phase, issues one PDU of the right kind to each session that
      the phases on the way ask for and nothing else, and sends them. */
  lemma StepIssues(s: State, e: Event)
    requires Inv(s) && AllSent(s) && !s.answered && Enabled(s, e) && !e.Invalid?
    ensures var t, plan, error, waiting := Step(s, e), PlanOf(e), ErrorNow(s, e), WaitingNow(s, e);
      && t.phase == NextPhase(s.phase, error, waiting, plan)
      && Issues(s, t, Asked(s.phase, error, waiting, plan))
      && Delivered(s, t, s.phase == Default && plan.test.failed) && AllSent(t)
  {
    hide ProcessSet, Finalize, Respond, Inv, Issues, Delivered, Passed, NextPhase, Asked, AllSent;
    match e
    case Arrives(plan) =>
      ProcessWork(s, plan);
      Starts(s);
      FinalizeDelivers(s, ProcessSet(s, plan), Asked(s.phase, s.error, s.queue != map[], plan), plan.test.failed);
    case Response(p, ok, finished, plan) =>
      var u := Respond(s, p, ok, finished);
      RespondKeeps(s, p, ok, finished);
      Responded(s, p, ok, finished);
      ProcessWork(u, plan);
      var l, cancelled := Asked(u.phase, u.error, u.queue != map[], plan), u.phase == Default && plan.test.failed;
      PassedFrom(s, u, ProcessSet(u, plan), l, cancelled);
      FinalizeDelivers(s, ProcessSet(u, plan), l, cancelled);
  }

  lemma PassedFrom(s: State, u: State, t: State, l: Lists, cancelled: bool)
    requires u.issued == s.issued && u.to == s.to && Passed(u, t, l, cancelled)
    ensures Passed(s, t, l, cancelled)
  {
    hide OneEach, Issues;
    SameIssues(u, t, s, t, l);
  }

  lemma Responded(s: State, p: nat, ok: bool, finished: nat)
    requires p in s.queue && AllSent(s) && !s.answered
    ensures var u := Respond(s, p, ok, finished);
      && u.issued == s.issued && u.to == s.to && AllSent(u) && u.phase == s.phase && u.answered == s.answered
      && u.error == (s.error || !ok) && (u.queue != map[] <==> s.queue.Keys != {p})
  {
    var u := Respond(s, p, ok, finished);
    assert u.queue.Keys == s.queue.Keys - {p};
    if s.queue.Keys != {p} {
      var q :| q in s.queue && q != p;
      assert q in u.queue;
    } else {
      assert forall q :: q !in u.queue;
    }
  }

  /** Once a request is answered, or a response is not valid, nothing is issued. */
  lemma StepQuiet(s: State, e: Event)
    requires Enabled(s, e) && (s.answered || e.Invalid?)
    ensures var t := Step(s, e); t.issued == s.issued && t.to == s.to && (AllSent(s) ==> AllSent(t)) && t.answered
  {
    hide ProcessSet, Finalize;
  }

  /** Refusing the last outstanding CommitSet sends one UndoSet to every session that the undo phase asks for, and
      nothing else. The request then waits, unless no UndoSet was sent or an object finished its binding in the undo. */
  lemma LastRefused(s: State, p: nat, finished: nat, plan: Plan)
    requires Inv(s) && AllSent(s) && s.phase == Commit && !s.answered && Sensible(plan)
    requires p in s.queue && s.queue.Keys == {p}
    ensures var t := Step(s, Response(p, false, finished, plan));
      && t.phase == Undo && OneEach(s, t, UndoSet, plan.undo.sessions)
      && (forall q: nat :: q in t.issued && q !in s.issued ==>
                             t.issued[q] == UndoSet && q in t.to &&
                             q in t.queue && t.queue[q] == Pdu(t.to[q], UndoSet, true))
      && (t.answered <==> plan.undo.sessions == [] || (!plan.undo.error && plan.undo.finished > 0))
  {
    hide Step, Inv, OneEach, Delivered, AllSent;
    var e := Response(p, false, finished, plan);
    StepIssues(s, e);
    OnlyKind(s, Step(s, e), plan.undo.sessions);
    RefusedAnswers(s, p, finished, plan);
  }

  lemma OnlyKind(s: State, t: State, l: seq<nat>)
    requires Issues(s, t, Only(UndoSet, l)) && Delivered(s, t, false)
    ensures forall q: nat :: q in t.issued && q !in s.issued ==>
                               t.issued[q] == UndoSet && q in t.to &&
                               q in t.queue && t.queue[q] == Pdu(t.to[q], UndoSet, true)
  {
    forall q: nat | q in t.issued && q !in s.issued ensures t.issued[q] == UndoSet {
      assert New(s, t, q, t.issued[q]);
    }
  }

  lemma RefusedAnswers(s: State, p: nat, finished: nat, plan: Plan)
    requires Inv(s) && AllSent(s) && s.phase == Commit && !s.answered && Sensible(plan)
    requires p in s.queue && s.queue.Keys == {p}
    ensures Step(s, Response(p, false, finished, plan)).answered <==>
              plan.undo.sessions == [] || (!plan.undo.error && plan.undo.finished > 0)
  {
    hide Inv, Perform, Issues, Worked, Recorded;
    var u := Respond(s, p, false, finished);
    RespondKeeps(s, p, false, finished);
    Responded(s, p, false, finished);
    InvRecorded(u);
    UndoWork(u, plan);
    UndoOutstanding(u, plan);
  }

  lemma UndoOutstanding(u: State, plan: Plan)
    requires u.outstanding == 0
    ensures Perform(u.(phase := Undo), UndoSet, plan.undo).outstanding ==
              0 - if plan.undo.error then 0 else plan.undo.finished
    ensures Perform(u.(phase := Undo), UndoSet, plan.undo).answered == u.answered
  {
    AddAllKept(u.(phase := Undo), UndoSet, plan.undo.sessions);
  }

  lemma {:induction false} AddAllKept(s: State, k: Kind, l: seq<nat>)
    ensures AddAll(s, k, l).answered == s.answered
    decreases |l|
  {
    if l != [] {
      AddAllKept(s, k, l[..|l| - 1]);
    }
  }

  /** During undo the request is answered with the last response, and not before. */
  lemma UndoWaits(s: State, p: nat, ok: bool, finished: nat, plan: Plan)
    requires Inv(s) && AllSent(s) && s.phase == Undo && !s.answered && s.outstanding > 0 && p in s.queue
    requires Sensible(plan)
    ensures Step(s, Response(p, ok, finished, plan)).answered <==> s.queue.Keys == {p}
  {
    Responded(s, p, ok, finished);
  }

  /** While other CommitSets are out, a confirmed one counts the bindings it finished, and the request is answered
      exactly when none is left to count or the response is an error, which leaves nothing counted. */
  lemma CommitsCounted(s: State, p: nat, ok: bool, finished: nat, plan: Plan)
    requires Inv(s) && AllSent(s) && s.phase == Commit && !s.answered && Sensible(plan)
    requires p in s.queue && s.queue.Keys != {p}
    ensures var t := Step(s, Response(p, ok, finished, plan));
      && t.phase == Commit && t.issued == s.issued && t.to == s.to && t.error == (s.error || !ok)
      && t.outstanding == (if ok then s.outstanding - finished else 0) && t.queue.Keys == s.queue.Keys - {p}
      && (t.answered <==> !ok || s.outstanding <= finished)
  {
    Responded(s, p, ok, finished);
  }

  /** During the tests the request waits for every response, and the cleanup answers it. */
  lemma TestsWait(s: State, p: nat, ok: bool, finished: nat, plan: Plan)
    requires Inv(s) && AllSent(s) && s.phase == Prepare && !s.answered && s.outstanding > 0 && p in s.queue
    requires Sensible(plan)
    ensures var t := Step(s, Response(p, ok, finished, plan));
      && (t.phase == Prepare ==> !t.answered) && (t.phase == Cleanup ==> t.answered)
  {
    hide Perform, AllSent;
    Responded(s, p, ok, finished);
    var u := Respond(s, p, ok, finished);
    PrepareOutcome(u, plan);
    if !u.error {
      TestKept(s, p, finished);
    }
  }

  lemma PrepareOutcome(u: State, plan: Plan)
    requires u.phase == Prepare
    ensures var t := AfterPrepare(u, plan);
      && (t.phase == Prepare ==> t == u && u.queue != map[] && !u.error)
      && (t.phase == Cleanup ==> t.outstanding == 0)
  {
    hide Perform;
    PerformSame(u.(phase := Commit), CommitSet, plan.commit);
    PerformSame(u.(phase := Cleanup), CleanupSet, plan.cleanup);
    var t := Perform(u.(phase := Commit), CommitSet, plan.commit);
    var c := t.(outstanding := t.outstanding + 1);
    PerformSame(c.(phase := Undo), UndoSet, plan.undo);
    PerformSame(c.(phase := Cleanup), CleanupSet, plan.cleanup);
    if !u.error && u.queue != map[] {
      PendingCommit(u, plan);
    }
  }

  lemma TestKept(s: State, p: nat, finished: nat)
    requires Inv(s) && s.phase == Prepare && p in s.queue && !s.answered
    ensures Respond(s, p, true, finished).outstanding == s.outstanding
  {
  }

  // ---------- runs ----------

  /** Between steps everything queued is sent, and a request that waits counts something as outstanding. */
  ghost predicate Settled(s: State) {
    AllSent(s) && (s.answered || s.phase == Default || s.outstanding > 0)
  }

  lemma StepSettles(s: State, e: Event)
    requires Inv(s) && Settled(s) && Enabled(s, e)
    ensures Settled(Step(s, e))
  {
    hide ProcessSet, Inv, Respond, Issues, Delivered;
    if s.answered || e.Invalid? {
      StepQuiet(s, e);
    } else {
      StepIssues(s, e);
    }
  }

  lemma {:induction false} RunSettled(states: seq<State>, events: seq<Event>, i: nat)
    requires Run(states, events) && i < |states|
    ensures Inv(states[i]) && Settled(states[i])
  {
    hide Inv, Step, Enabled, Settled;
    RunKeeps(states, events, i);
    if i == 0 {
      var n: nat :| states[0] == Received(n);
      ReceivedSettled(n);
    } else {
      RunSettled(states, events, i - 1);
      StepSettles(states[i - 1], events[i - 1]);
    }
  }

  lemma ReceivedSettled(n: nat)
    ensures Settled(Received(n))
  {
  }

  /** In every run each step goes to the next phase and sends exactly what that phase asks for; the only PDUs sent are
      those, and none is sent once the request is answered. */
  lemma RunIssues(states: seq<State>, events: seq<Event>, i: nat)
    requires Run(states, events) && i < |events|
    ensures var s, t, e := states[i], states[i + 1], events[i];
      if s.answered || e.Invalid? then t.issued == s.issued && t.answered
      else var plan, error, waiting := PlanOf(e), ErrorNow(s, e), WaitingNow(s, e);
        && t.phase == NextPhase(s.phase, error, waiting, plan)
        && Issues(s, t, Asked(s.phase, error, waiting, plan))
        && Delivered(s, t, s.phase == Default && plan.test.failed)
  {
    hide Inv, Step, Issues, Delivered, NextPhase, Asked, Enabled;
    RunSettled(states, events, i);
    var s, e := states[i], events[i];
    assert Enabled(s, e) && states[i + 1] == Step(s, e);
    if s.answered || e.Invalid? {
      StepQuiet(s, e);
    } else {
      StepIssues(s, e);
    }
  }
}
