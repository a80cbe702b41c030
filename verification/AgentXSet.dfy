/** The distributed SET of the master: test, then commit, then undo or cleanup, under any order of responses. */
module AgentXSet {

  datatype Phase = Default | Prepare | Commit | Undo | Cleanup

  function Rank(p: Phase): nat {
    match p
    case Default => 0
    case Prepare => 1
    case Commit => 2
    case Undo => 3
    case Cleanup => 4
  }

  datatype Kind = TestSet | CommitSet | UndoSet | CleanupSet

  datatype Pdu = Pdu(session: nat, kind: Kind, sent: bool)

  /** What the MIB objects of the request do in one phase: the sessions that subagents of theirs belong to, whether an
      object records an error, whether the phase reports failure, and how many bindings are finished at once. */
  datatype Work = Work(sessions: seq<nat>, error: bool, failed: bool, finished: nat)

  datatype Plan = Plan(test: Work, commit: Work, undo: Work, cleanup: Work)

  /** The request, the queue of its outstanding PDUs by packet id, and, for the record, every PDU ever queued with its
      kind and session, and those answered without and with an error. `answered` says that the request itself is
      answered and gone. */
  datatype State = State(
    phase: Phase, error: bool, outstanding: int, answered: bool, queue: map<nat, Pdu>, next: nat,
    issued: map<nat, Kind>, to: map<nat, nat>, oked: set<nat>, refused: set<nat>)

  function Received(bindings: nat): State {
    State(Default, false, bindings, false, map[], 0, map[], map[], {}, {})
  }

  // ---------- queueing ----------

  predicate HasUnsent(q: map<nat, Pdu>, session: nat) {
    exists p :: p in q && q[p].session == session && !q[p].sent
  }

  /** A PDU of the session that is not yet sent takes the binding along; otherwise a new one is queued. */
  function AddSetSubrequest(s: State, kind: Kind, session: nat): State {
    if HasUnsent(s.queue, session) then s
    else s.(queue := s.queue[s.next := Pdu(session, kind, false)],
            issued := s.issued[s.next := kind],
            to := s.to[s.next := session],
            next := s.next + 1)
  }

  function AddAll(s: State, kind: Kind, sessions: seq<nat>): State
    decreases |sessions|
  {
    if sessions == [] then s
    else AddSetSubrequest(AddAll(s, kind, sessions[..|sessions| - 1]), kind, sessions[|sessions| - 1])
  }

  function Perform(s: State, kind: Kind, w: Work): State {
    var t := AddAll(s, kind, w.sessions);
    t.(error := s.error || w.error, outstanding := if w.error then 0 else s.outstanding - w.finished)
  }

  function Pending(s: State): bool {
    s.queue != map[]
  }

  // ---------- one pass through the phases ----------

  /** A failed preparation records an error. */
  predicate Sensible(plan: Plan) {
    plan.test.failed ==> plan.test.error
  }

  function StartPrepare(s: State, w: Work): State {
    var t := Perform(s.(phase := Prepare), TestSet, w);
    if w.failed then t.(queue := map[]) else t
  }

  function EndCleanup(s: State, w: Work): State {
    Perform(s.(phase := Cleanup), CleanupSet, w).(outstanding := 0)
  }

  function AfterCommit(s: State, plan: Plan): State {
    if Pending(s) then s
    else if s.error then AfterUndo(Perform(s.(phase := Undo), UndoSet, plan.undo))
    else EndCleanup(s, plan.cleanup)
  }

  function AfterUndo(s: State): State {
    if !Pending(s) then s.(outstanding := 0)
    else if s.outstanding <= 0 then s.(outstanding := s.outstanding + 1)
    else s
  }

  function AfterPrepare(s: State, plan: Plan): State {
    if s.error then EndCleanup(s, plan.cleanup)
    else if Pending(s) then AfterCommit(s, plan)
    else
      var t := Perform(s.(phase := Commit), CommitSet, plan.commit);
      AfterCommit(t.(outstanding := t.outstanding + 1), plan)
  }

  function ProcessSet(s: State, plan: Plan): State {
    match s.phase
    case Default => var t := StartPrepare(s, plan.test); if Pending(t) then t else AfterPrepare(t, plan)
    case Prepare => AfterPrepare(s, plan)
    case Commit => AfterCommit(s, plan)
    case Undo => AfterUndo(s)
    case Cleanup => s.(outstanding := 0)
  }

  // ---------- sending, answering, responses ----------

  function Unsent(q: map<nat, Pdu>): set<nat> {
    set p | p in q && !q[p].sent
  }

  /** Everything not yet sent is sent; a CleanupSet is not waited for. */
  function SendPending(s: State): State {
    s.(queue := map p | p in s.queue && (s.queue[p].sent || s.queue[p].kind != CleanupSet) :: s.queue[p].(sent := true))
  }

  function Finalize(s: State): State {
    var t := SendPending(s);
    if s.outstanding <= 0 then t.(answered := true)
    else if Unsent(s.queue) == {} && !Pending(s) then t.(answered := true)
    else t
  }

  /** A response, or the timeout of a PDU, which counts as a response with an error. */
  function Respond(s: State, p: nat, ok: bool, finished: nat): State
    requires p in s.queue
  {
    var kind := s.queue[p].kind;
    var t := s.(queue := s.queue - {p},
                oked := if ok then s.oked + {p} else s.oked,
                refused := if ok then s.refused else s.refused + {p});
    if s.answered then t
    else if !ok then t.(error := true, outstanding := 0)
    else if kind == CommitSet then t.(outstanding := s.outstanding - finished)
    else t
  }

  datatype Event =
    | Arrives(plan: Plan)
    | Response(p: nat, ok: bool, finished: nat, plan: Plan)
    | Invalid(p: nat)

  predicate Enabled(s: State, e: Event) {
    match e
    case Arrives(plan) => s.phase == Default && !s.answered && Sensible(plan)
    case Response(p, _, _, plan) => p in s.queue && Sensible(plan)
    case Invalid(p) => p in s.queue
  }

  function Step(s: State, e: Event): State
    requires Enabled(s, e)
  {
    match e
    case Arrives(plan) => Finalize(ProcessSet(s, plan))
    case Response(p, ok, finished, plan) =>
      var t := Respond(s, p, ok, finished);
      if s.answered then t else Finalize(ProcessSet(t, plan))
    case Invalid(p) =>
      var t := Respond(s, p, false, 0);
      t.(answered := true)
  }

  /** A run: each state follows from the one before by an enabled event. */
  ghost predicate Run(states: seq<State>, events: seq<Event>) {
    && |states| == |events| + 1
    && (exists n: nat :: states[0] == Received(n))
    && forall i :: 0 <= i < |events| ==> Enabled(states[i], events[i]) && states[i + 1] == Step(states[i], events[i])
  }

  // ---------- what every step keeps ----------

  predicate Issued(s: State, k: Kind) {
    exists p :: p in s.issued && s.issued[p] == k
  }

  /** Every PDU of kind `k` ever queued has been answered without an error. */
  predicate AllOked(s: State, k: Kind) {
    forall p :: p in s.issued && s.issued[p] == k ==> p in s.oked
  }

  /** None of kind `k` is outstanding. */
  predicate NoneOut(s: State, k: Kind) {
    forall p :: p in s.queue ==> s.queue[p].kind != k
  }

  /** Packet ids and the record agree with the queue. */
  ghost predicate Recorded(s: State) {
    forall p: nat ::
      && (p in s.queue ==> p in s.issued && s.issued[p] == s.queue[p].kind && p !in s.oked && p !in s.refused)
      && (p in s.queue ==> p in s.to && s.to[p] == s.queue[p].session)
      && (p in s.issued ==> p < s.next) && (p in s.to <==> p in s.issued)
      && (p in s.oked || p in s.refused ==> p in s.issued)
  }

  /** Without an error, what is not outstanding was answered without one. */
  predicate Accounted(s: State) {
    !s.error && !s.answered ==>
      forall p :: p in s.issued && s.issued[p] != CleanupSet && p !in s.queue ==> p in s.oked
  }

  predicate PhaseQueue(s: State) {
    match s.phase
    case Default => s.queue == map[] && s.issued == map[] && !s.error
    case Prepare =>
      && NoneOut(s, CommitSet) && NoneOut(s, UndoSet) && NoneOut(s, CleanupSet)
      && !Issued(s, CommitSet) && !Issued(s, UndoSet)
    case Commit =>
      && NoneOut(s, TestSet) && NoneOut(s, UndoSet) && NoneOut(s, CleanupSet)
      && !Issued(s, UndoSet) && AllOked(s, TestSet)
    case Undo =>
      && NoneOut(s, TestSet) && NoneOut(s, CommitSet) && NoneOut(s, CleanupSet)
      && AllOked(s, TestSet) && s.error
    case Cleanup =>
      && NoneOut(s, CommitSet) && NoneOut(s, UndoSet) && !Issued(s, UndoSet)
      && (Issued(s, CommitSet) ==> AllOked(s, TestSet) && AllOked(s, CommitSet))
  }

  ghost predicate Inv(s: State) {
    Recorded(s) && Accounted(s) && PhaseQueue(s)
  }

  /** `t` has the PDUs of `s`, and new ones of the given kind that are all queued. */
  ghost predicate MorePdus(s: State, t: State, kind: Kind) {
    forall p: nat ::
      && (p in s.queue ==> p in t.queue && t.queue[p] == s.queue[p])
      && (p in s.issued ==> p in t.issued && t.issued[p] == s.issued[p])
      && (p in s.to ==> p in t.to && t.to[p] == s.to[p])
      && (p in t.queue && p !in s.queue ==> t.queue[p].kind == kind)
      && (p in t.issued && p !in s.issued ==> t.issued[p] == kind && p in t.queue)
  }

  ghost predicate Extended(s: State, t: State, kind: Kind) {
    Recorded(t) && t == s.(queue := t.queue, issued := t.issued, to := t.to, next := t.next) && MorePdus(s, t, kind)
  }

  lemma AddOneRecorded(s: State, kind: Kind, session: nat)
    requires Recorded(s)
    ensures Recorded(AddSetSubrequest(s, kind, session))
    ensures s.next !in s.issued && s.next !in s.queue && s.next !in s.to
  {
    hide HasUnsent;
  }

  lemma AddOneKeeps(s: State, t: State, kind: Kind, session: nat)
    requires Extended(s, t, kind)
    ensures Extended(s, AddSetSubrequest(t, kind, session), kind)
  {
    hide HasUnsent, Recorded, MorePdus;
    AddOneRecorded(t, kind, session);
    if !HasUnsent(t.queue, session) {
      AddOneMore(s, t, kind, session);
    }
  }

  lemma AddOneMore(s: State, t: State, kind: Kind, session: nat)
    requires MorePdus(s, t, kind) && t.next !in t.issued && t.next !in t.queue && t.next !in t.to
    ensures var u := t.(queue := t.queue[t.next := Pdu(session, kind, false)], issued := t.issued[t.next := kind],
                        to := t.to[t.next := session]);
      MorePdus(s, u.(next := t.next + 1), kind)
  {
    assert t.next !in s.issued && t.next !in s.queue && t.next !in s.to;
  }

  lemma {:induction false} AddAllKeeps(s: State, kind: Kind, sessions: seq<nat>)
    requires Recorded(s)
    ensures Extended(s, AddAll(s, kind, sessions), kind)
    decreases |sessions|
  {
    hide AddSetSubrequest;
    if sessions == [] {
      assert AddAll(s, kind, sessions) == s;
    } else {
      hide Extended;
      AddAllKeeps(s, kind, sessions[..|sessions| - 1]);
      AddOneKeeps(s, AddAll(s, kind, sessions[..|sessions| - 1]), kind, sessions[|sessions| - 1]);
    }
  }

  /** What the work of one phase leaves: new PDUs of its kind only, and nothing else touched. */
  ghost predicate Grown(s: State, t: State, kind: Kind) {
    && t == s.(error := t.error, outstanding := t.outstanding, queue := t.queue, issued := t.issued, to := t.to,
            next := t.next)
    && (s.error ==> t.error) && MorePdus(s, t, kind)
  }

  lemma PerformKeeps(s: State, kind: Kind, w: Work)
    requires Recorded(s)
    ensures var t := Perform(s, kind, w);
      Recorded(t) && Grown(s, t, kind) && (Accounted(s) ==> Accounted(t))
  {
    AddAllKeeps(s, kind, w.sessions);
  }

  lemma EndCleanupKeeps(s: State, w: Work)
    requires Recorded(s) && Accounted(s) && NoneOut(s, CommitSet) && NoneOut(s, UndoSet) && !Issued(s, UndoSet)
    requires Issued(s, CommitSet) ==> AllOked(s, TestSet) && AllOked(s, CommitSet)
    ensures Inv(EndCleanup(s, w)) && EndCleanup(s, w).phase == Cleanup
  {
    hide Perform;
    var t := Perform(s.(phase := Cleanup), CleanupSet, w);
    PerformKeeps(s.(phase := Cleanup), CleanupSet, w);
    hide Recorded, Accounted;
    CleanupGrown(s, t);
    Uncounted(t);
  }

  lemma Uncounted(t: State)
    requires Recorded(t) && Accounted(t)
    ensures Recorded(t.(outstanding := 0)) && Accounted(t.(outstanding := 0))
  {
  }

  lemma CleanupGrown(s: State, t: State)
    requires NoneOut(s, CommitSet) && NoneOut(s, UndoSet) && !Issued(s, UndoSet)
    requires Issued(s, CommitSet) ==> AllOked(s, TestSet) && AllOked(s, CommitSet)
    requires Grown(s.(phase := Cleanup), t, CleanupSet)
    ensures PhaseQueue(t.(outstanding := 0)) && t.phase == Cleanup
  {
  }

  lemma AllAnswered(s: State, kind: Kind)
    requires Recorded(s) && Accounted(s) && !s.error && !s.answered && !Pending(s) && kind != CleanupSet
    ensures AllOked(s, kind)
  {
  }

  lemma AfterCommitKeeps(s: State, plan: Plan)
    requires Inv(s) && s.phase == Commit && !s.answered
    ensures Inv(AfterCommit(s, plan)) && Rank(s.phase) <= Rank(AfterCommit(s, plan).phase)
  {
    hide Inv, Perform, EndCleanup, Accounted, Recorded, Issued, AllOked, NoneOut;
    if !Pending(s) {
      if s.error {
        UndoKeeps(s, plan);
      } else {
        CommitEnds(s, plan);
      }
    }
  }

  lemma UndoKeeps(s: State, plan: Plan)
    requires Inv(s) && s.phase == Commit && !s.answered && !Pending(s) && s.error
    ensures var t := AfterUndo(Perform(s.(phase := Undo), UndoSet, plan.undo)); Inv(t) && t.phase == Undo
  {
    hide Perform, Inv;
    var t := Perform(s.(phase := Undo), UndoSet, plan.undo);
    UndoPerformed(s, plan.undo);
    OutstandingFree(t, 0);
    OutstandingFree(t, t.outstanding + 1);
  }

  lemma OutstandingFree(s: State, n: int)
    requires Inv(s)
    ensures Inv(s.(outstanding := n))
  {
  }

  lemma UndoPerformed(s: State, w: Work)
    requires Inv(s) && s.phase == Commit && !Pending(s) && s.error
    ensures var t := Perform(s.(phase := Undo), UndoSet, w); Inv(t) && t.phase == Undo
  {
    hide Perform;
    PerformKeeps(s.(phase := Undo), UndoSet, w);
  }

  lemma CommitPerformed(s: State, w: Work)
    requires Inv(s) && s.phase == Prepare && !Pending(s) && !s.error && !s.answered
    ensures var t := Perform(s.(phase := Commit), CommitSet, w); Inv(t) && t.phase == Commit && !t.answered
  {
    hide Perform;
    AllAnswered(s, TestSet);
    PerformKeeps(s.(phase := Commit), CommitSet, w);
  }

  lemma CommitEnds(s: State, plan: Plan)
    requires Inv(s) && s.phase == Commit && !s.answered && !Pending(s) && !s.error
    ensures Inv(EndCleanup(s, plan.cleanup)) && EndCleanup(s, plan.cleanup).phase == Cleanup
  {
    AllAnswered(s, CommitSet);
    EndCleanupKeeps(s, plan.cleanup);
  }

  lemma AfterPrepareKeeps(s: State, plan: Plan)
    requires Inv(s) && s.phase == Prepare && !s.answered
    ensures Inv(AfterPrepare(s, plan)) && Rank(s.phase) <= Rank(AfterPrepare(s, plan).phase)
  {
    hide Inv, Perform, EndCleanup, Accounted, Recorded, Issued, AllOked, NoneOut;
    if s.error {
      PrepareFails(s, plan.cleanup);
    } else if !Pending(s) {
      CommitPerformed(s, plan.commit);
      var t := Perform(s.(phase := Commit), CommitSet, plan.commit);
      OutstandingFree(t, t.outstanding + 1);
      AfterCommitKeeps(t.(outstanding := t.outstanding + 1), plan);
    }
  }

  lemma PrepareFails(s: State, w: Work)
    requires Inv(s) && s.phase == Prepare
    ensures Inv(EndCleanup(s, w)) && EndCleanup(s, w).phase == Cleanup
  {
    EndCleanupKeeps(s, w);
  }

  lemma ProcessSetKeeps(s: State, plan: Plan)
    requires Inv(s) && !s.answered && Sensible(plan)
    ensures Inv(ProcessSet(s, plan)) && Rank(s.phase) <= Rank(ProcessSet(s, plan).phase)
  {
    match s.phase
    case Default =>
      StartKeeps(s, plan);
      var t := StartPrepare(s, plan.test);
      if !Pending(t) {
        AfterPrepareKeeps(t, plan);
      }
    case Prepare => AfterPrepareKeeps(s, plan);
    case Commit => AfterCommitKeeps(s, plan);
    case _ =>
  }

  lemma StartKeeps(s: State, plan: Plan)
    requires Inv(s) && !s.answered && s.phase == Default && Sensible(plan)
    ensures var t := StartPrepare(s, plan.test); Inv(t) && t.phase == Prepare && !t.answered
  {
    PerformKeeps(s.(phase := Prepare), TestSet, plan.test);
  }

  lemma FinalizeKeeps(s: State)
    requires Inv(s)
    ensures Inv(Finalize(s)) && Finalize(s).phase == s.phase && Finalize(s).issued == s.issued
    ensures Finalize(s).oked == s.oked && Finalize(s).error == s.error
  {
    hide Recorded, Accounted, PhaseQueue;
    FinalizeRecorded(s);
    FinalizePhase(s);
  }

  lemma FinalizeRecorded(s: State)
    requires Recorded(s)
    ensures Recorded(Finalize(s)) && (Accounted(s) ==> Accounted(Finalize(s)))
  {
  }

  lemma FinalizePhase(s: State)
    requires PhaseQueue(s)
    ensures PhaseQueue(Finalize(s))
  {
    hide Finalize;
    FinalizeShape(s);
  }

  lemma FinalizeShape(s: State)
    ensures var t := Finalize(s);
      && t == s.(queue := t.queue, answered := t.answered) && (s.queue == map[] ==> t.queue == map[])
      && forall p :: p in t.queue ==> p in s.queue && t.queue[p].kind == s.queue[p].kind
  {
  }

  lemma RespondKeeps(s: State, p: nat, ok: bool, finished: nat)
    requires Inv(s) && p in s.queue
    ensures Inv(Respond(s, p, ok, finished)) && Respond(s, p, ok, finished).phase == s.phase
    ensures Respond(s, p, ok, finished).answered == s.answered
  {
    hide Recorded, Accounted, PhaseQueue;
    RespondRecorded(s, p, ok, finished);
    RespondPhase(s, p, ok, finished);
  }

  lemma RespondRecorded(s: State, p: nat, ok: bool, finished: nat)
    requires Recorded(s) && p in s.queue
    ensures Recorded(Respond(s, p, ok, finished)) && (Accounted(s) ==> Accounted(Respond(s, p, ok, finished)))
  {
  }

  lemma RespondPhase(s: State, p: nat, ok: bool, finished: nat)
    requires PhaseQueue(s) && p in s.queue
    ensures PhaseQueue(Respond(s, p, ok, finished))
  {
    hide Recorded, Accounted;
  }

  /** Every step keeps the bookkeeping and moves the phase forward or not at all. */
  lemma StepKeeps(s: State, e: Event)
    requires Inv(s) && Enabled(s, e)
    ensures Inv(Step(s, e)) && Rank(s.phase) <= Rank(Step(s, e).phase)
  {
    hide Inv, ProcessSet, Finalize, Respond;
    match e
    case Arrives(plan) =>
      ProcessSetKeeps(s, plan);
      FinalizeKeeps(ProcessSet(s, plan));
    case Response(p, ok, finished, plan) =>
      RespondKeeps(s, p, ok, finished);
      var t := Respond(s, p, ok, finished);
      if !s.answered {
        ProcessSetKeeps(t, plan);
        FinalizeKeeps(ProcessSet(t, plan));
      }
    case Invalid(p) =>
      RespondKeeps(s, p, false, 0);
      AnsweredKeeps(Respond(s, p, false, 0));
  }

  lemma AnsweredKeeps(s: State)
    requires Inv(s)
    ensures Inv(s.(answered := true))
  {
  }

  // ---------- what this means for every run ----------

  /** A PDU of kind `k` that `t` has and `s` has not. */
  predicate Newly(s: State, t: State, k: Kind) {
    exists p :: p in t.issued && p !in s.issued && t.issued[p] == k
  }

  lemma PerformIssues(s: State, phase: Phase, kind: Kind, w: Work, k: Kind)
    requires Recorded(s) && k != kind
    ensures !Newly(s, Perform(s.(phase := phase), kind, w), k)
  {
    hide Perform;
    var c := s.(phase := phase);
    PerformKeeps(c, kind, w);
  }

  /** From the commit phase on, and when preparation has failed or goes on, no CommitSet is queued. */
  lemma AfterCommitIssues(s: State, plan: Plan)
    requires Recorded(s)
    ensures !Newly(s, AfterCommit(s, plan), CommitSet)
  {
    hide Perform, Recorded;
    PerformIssues(s, Undo, UndoSet, plan.undo, CommitSet);
    PerformIssues(s, Cleanup, CleanupSet, plan.cleanup, CommitSet);
  }

  lemma AfterPrepareIssues(s: State, plan: Plan)
    requires Recorded(s) && (s.error || Pending(s))
    ensures !Newly(s, AfterPrepare(s, plan), CommitSet)
  {
    hide Perform, Recorded;
    PerformIssues(s, Cleanup, CleanupSet, plan.cleanup, CommitSet);
  }

  lemma ProcessSetIssues(s: State, plan: Plan)
    requires Inv(s) && !s.answered && Newly(s, ProcessSet(s, plan), CommitSet)
    ensures !s.error && Rank(s.phase) <= Rank(Prepare)
  {
    hide AfterCommit, AfterPrepare, StartPrepare, Recorded, Accounted, Newly, Perform;
    match s.phase
    case Default =>
    case Prepare =>
      if s.error {
        AfterPrepareIssues(s, plan);
      }
    case Commit => AfterCommitIssues(s, plan);
    case Undo => SameIssued(s, AfterUndo(s));
    case Cleanup => SameIssued(s, s.(outstanding := 0));
  }

  lemma SameIssued(s: State, t: State)
    requires t.issued == s.issued
    ensures !Newly(s, t, CommitSet)
  {
  }

  /** CommitSets are queued only by a step from before the commit phase, with no error recorded and none coming in, when
      every TestSet has been answered without an error. */
  lemma CommitsStart(s: State, e: Event)
    requires Inv(s) && Enabled(s, e) && Newly(s, Step(s, e), CommitSet)
    ensures !s.error && Rank(s.phase) <= Rank(Prepare) && (e.Response? ==> e.ok)
    ensures AllOked(Step(s, e), TestSet) && NoneOut(Step(s, e), TestSet)
  {
    hide ProcessSet, Finalize, Respond, Inv, NoneOut, AllOked;
    StepKeeps(s, e);
    CommittedTests(s, Step(s, e));
    match e
    case Arrives(plan) =>
      ProcessSetKeeps(s, plan);
      FinalizeKeeps(ProcessSet(s, plan));
      ProcessSetIssues(s, plan);
    case Response(p, ok, finished, plan) =>
      var t := Respond(s, p, ok, finished);
      RespondKeeps(s, p, ok, finished);
      RespondRecord(s, p, ok, finished);
      if s.answered {
        SameIssued(s, t);
      } else {
        ProcessSetKeeps(t, plan);
        FinalizeKeeps(ProcessSet(t, plan));
        ProcessSetIssues(t, plan);
      }
    case Invalid(p) =>
      RespondRecord(s, p, false, 0);
      SameIssued(s, Step(s, e));
  }

  lemma RespondRecord(s: State, p: nat, ok: bool, finished: nat)
    requires p in s.queue
    ensures Respond(s, p, ok, finished).issued == s.issued
    ensures !s.answered ==> Respond(s, p, ok, finished).error == (s.error || !ok)
  {
  }

  /** Once a CommitSet exists, every TestSet has been answered without an error. */
  lemma CommittedTests(s: State, t: State)
    requires Inv(t) && Newly(s, t, CommitSet)
    ensures Issued(t, CommitSet) && AllOked(t, TestSet) && NoneOut(t, TestSet)
  {
  }

  /** An UndoSet is queued only with an error recorded and no CommitSet outstanding, and after CommitSets were tried. */
  lemma UndoState(s: State)
    requires Inv(s) && Issued(s, UndoSet)
    ensures s.phase == Undo && s.error && NoneOut(s, CommitSet) && AllOked(s, TestSet)
  {
  }

  lemma {:induction false} RunKeeps(states: seq<State>, events: seq<Event>, i: nat)
    requires Run(states, events) && i < |states|
    ensures Inv(states[i])
  {
    hide Inv, Step, Enabled;
    if i == 0 {
      var n: nat :| states[0] == Received(n);
      StartsWell(n);
    } else {
      RunKeeps(states, events, i - 1);
      StepKeeps(states[i - 1], events[i - 1]);
      assert Enabled(states[i - 1], events[i - 1]) && states[i] == Step(states[i - 1], events[i - 1]);
    }
  }

  lemma StartsWell(n: nat)
    ensures Inv(Received(n))
  {
  }

  /** In every run the phase only moves forward. */
  lemma {:induction false} RunForward(states: seq<State>, events: seq<Event>, i: nat, j: nat)
    requires Run(states, events) && i <= j < |states|
    ensures Rank(states[i].phase) <= Rank(states[j].phase)
    decreases j - i
  {
    hide Inv, Step, Enabled, Rank;
    if i < j {
      RunForward(states, events, i, j - 1);
      RunKeeps(states, events, j - 1);
      StepKeeps(states[j - 1], events[j - 1]);
      assert Enabled(states[j - 1], events[j - 1]) && states[j] == Step(states[j - 1], events[j - 1]);
    }
  }

  /** In every run, whenever a CommitSet has been queued every TestSet of the request has been answered without an
      error; an UndoSet goes with an error and with no CommitSet outstanding, and never with a CleanupSet. */
  lemma RunTwoPhases(states: seq<State>, events: seq<Event>, i: nat)
    requires Run(states, events) && i < |states|
    ensures Issued(states[i], CommitSet) ==> AllOked(states[i], TestSet) && NoneOut(states[i], TestSet)
    ensures Issued(states[i], UndoSet) ==> states[i].error && NoneOut(states[i], CommitSet)
    ensures states[i].phase == Cleanup && Issued(states[i], CommitSet) ==> AllOked(states[i], CommitSet)
  {
    hide Inv;
    RunKeeps(states, events, i);
    if Issued(states[i], CommitSet) {
      CommittedTests(Received(0), states[i]);
    }
    if Issued(states[i], UndoSet) {
      UndoState(states[i]);
    }
    if states[i].phase == Cleanup && Issued(states[i], CommitSet) {
      CleanupState(states[i]);
    }
  }

  lemma CleanupState(s: State)
    requires Inv(s) && s.phase == Cleanup && Issued(s, CommitSet)
    ensures AllOked(s, CommitSet)
  {
  }

  /** A failed CommitSet leads to undo exactly if it was the last one outstanding; otherwise the request is answered
      there and then, and undo never starts. */
  lemma UndoOnlyAfterLast(s: State, p: nat, plan: Plan)
    requires Inv(s) && s.phase == Commit && !s.answered && p in s.queue && Sensible(plan)
    ensures var t := Step(s, Response(p, false, 0, plan));
      (t.phase == Undo <==> s.queue.Keys == {p}) && (t.phase != Undo ==> t.answered && t.phase == Commit)
  {
    hide Perform, Inv;
    var t := Respond(s, p, false, 0);
    PerformSame(t.(phase := Undo), UndoSet, plan.undo);
    if q :| q in s.queue && q != p {
      assert q in t.queue;
    } else {
      assert s.queue.Keys == {p};
      assert t.queue == map[];
    }
  }

  lemma {:induction false} AddAllSame(s: State, kind: Kind, sessions: seq<nat>)
    ensures AddAll(s, kind, sessions).phase == s.phase
    decreases |sessions|
  {
    if sessions != [] {
      AddAllSame(s, kind, sessions[..|sessions| - 1]);
    }
  }

  lemma PerformSame(s: State, kind: Kind, w: Work)
    ensures Perform(s, kind, w).phase == s.phase
  {
    AddAllSame(s, kind, w.sessions);
  }

  // A run in which a commit is neither confirmed nor undone: a request with one object in each of two sessions.

  function Both(k: Kind, first: nat, sent: bool): map<nat, Pdu> {
    map[first := Pdu(7, k, sent), first + 1 := Pdu(8, k, sent)]
  }

  function One(k: Kind, p: nat): map<nat, Pdu> {
    map[p := Pdu(8, k, true)]
  }

  const BOTH := Work([7, 8], false, false, 0)

  const TWO_SESSIONS := Plan(BOTH, BOTH, BOTH, BOTH)

  lemma QueuesBoth(s: State, k: Kind)
    requires s.queue == map[]
    ensures AddAll(s, k, [7, 8]) ==
      s.(queue := Both(k, s.next, false), issued := s.issued[s.next := k][s.next + 1 := k],
         to := s.to[s.next := 7][s.next + 1 := 8], next := s.next + 2)
  {
    assert [7, 8][..1] == [7] && [7][..0] == [];
    assert AddAll(s, k, [7]) == AddSetSubrequest(AddAll(s, k, []), k, 7);
    var t := AddAll(s, k, [7]);
    assert t.queue == map[s.next := Pdu(7, k, false)] && !HasUnsent(t.queue, 8);
    assert AddAll(s, k, [7, 8]) == AddSetSubrequest(t, k, 8);
  }

  lemma SendsBoth(s: State, k: Kind, first: nat)
    requires s.queue == Both(k, first, false) && k != CleanupSet && s.outstanding > 0
    ensures Finalize(s) == s.(queue := Both(k, first, true))
  {
    assert first in s.queue && first in Unsent(s.queue);
    assert SendPending(s).queue == Both(k, first, true);
  }

  lemma WaitsForOne(s: State, k: Kind, p: nat)
    requires s.queue == One(k, p) && k != CleanupSet
    ensures Finalize(s) == if s.outstanding <= 0 then s.(answered := true) else s
  {
    assert p in s.queue;
    assert SendPending(s).queue == s.queue;
  }

  const TESTS := map[0 := TestSet, 1 := TestSet]

  const TESTS_AND_COMMITS := map[0 := TestSet, 1 := TestSet, 2 := CommitSet, 3 := CommitSet]

  const TWO_TO := map[0 := 7, 1 := 8]

  const FOUR_TO := map[0 := 7, 1 := 8, 2 := 7, 3 := 8]

  const TESTING := State(Prepare, false, 2, false, Both(TestSet, 0, true), 2, TESTS, TWO_TO, {}, {})

  const ONE_TESTED := State(Prepare, false, 2, false, One(TestSet, 1), 2, TESTS, TWO_TO, {0}, {})

  const COMMITTING :=
    State(Commit, false, 3, false, Both(CommitSet, 2, true), 4, TESTS_AND_COMMITS, FOUR_TO, {0, 1}, {})

  const ONE_REFUSED := State(Commit, true, 0, true, One(CommitSet, 3), 4, TESTS_AND_COMMITS, FOUR_TO, {0, 1}, {2})

  const LEFT := State(Commit, true, 0, true, map[], 4, TESTS_AND_COMMITS, FOUR_TO, {0, 1, 3}, {2})

  lemma TestsQueued()
    ensures Step(Received(2), Arrives(TWO_SESSIONS)) == TESTING
  {
    hide Finalize, AddAll;
    var s, t := Received(2).(phase := Prepare), TESTING.(queue := Both(TestSet, 0, false));
    QueuesBoth(s, TestSet);
    assert map[][0 := TestSet][1 := TestSet] == TESTS && map[][0 := 7][1 := 8] == TWO_TO;
    assert StartPrepare(Received(2), BOTH) == t;
    assert 0 in t.queue;
    SendsBoth(t, TestSet, 0);
  }

  lemma FirstTestOk()
    ensures Step(TESTING, Response(0, true, 0, TWO_SESSIONS)) == ONE_TESTED
  {
    hide Finalize, AddAll;
    assert TESTING.queue - {0} == One(TestSet, 1);
    assert Respond(TESTING, 0, true, 0) == ONE_TESTED;
    assert 1 in ONE_TESTED.queue;
    WaitsForOne(ONE_TESTED, TestSet, 1);
  }

  lemma CommitsQueued()
    ensures Step(ONE_TESTED, Response(1, true, 0, TWO_SESSIONS)) == COMMITTING
  {
    hide Finalize, AddAll;
    var s, t := Respond(ONE_TESTED, 1, true, 0), COMMITTING.(queue := Both(CommitSet, 2, false));
    assert ONE_TESTED.queue - {1} == map[];
    QueuesBoth(s.(phase := Commit), CommitSet);
    assert TESTS[2 := CommitSet][3 := CommitSet] == TESTS_AND_COMMITS && TWO_TO[2 := 7][3 := 8] == FOUR_TO;
    assert {0} + {1} == {0, 1};
    assert Perform(s.(phase := Commit), CommitSet, BOTH) == t.(outstanding := 2);
    assert 2 in t.queue;
    SendsBoth(t, CommitSet, 2);
  }

  lemma FirstCommitRefused()
    ensures Step(COMMITTING, Response(2, false, 0, TWO_SESSIONS)) == ONE_REFUSED
  {
    hide Finalize, AddAll;
    var t := ONE_REFUSED.(answered := false);
    assert COMMITTING.queue - {2} == One(CommitSet, 3);
    assert Respond(COMMITTING, 2, false, 0) == t;
    assert 3 in t.queue;
    WaitsForOne(t, CommitSet, 3);
  }

  lemma SecondCommitOk()
    ensures Step(ONE_REFUSED, Response(3, true, 0, TWO_SESSIONS)) == LEFT
  {
    assert ONE_REFUSED.queue - {3} == map[];
    assert {0, 1} + {3} == {0, 1, 3};
  }

  /** Both TestSets are answered without an error, the first CommitSet is refused while the second one is outstanding:
      the request is answered in the commit phase, the second commit then succeeds, and nothing is undone. */
  lemma CommitLeftBehind() returns (states: seq<State>, events: seq<Event>)
    ensures Run(states, events) && |events| == 5
    ensures states[3].queue == Both(CommitSet, 2, true) && states[3].oked == {0, 1} && !states[3].answered
    ensures states[4].answered && states[4].phase == Commit && states[4].queue == One(CommitSet, 3)
    ensures states[5].refused == {2} && 3 in states[5].oked && states[5].queue == map[]
    ensures !Issued(states[5], UndoSet) && states[5].error
  {
    hide Step;
    TestsQueued();
    FirstTestOk();
    CommitsQueued();
    FirstCommitRefused();
    SecondCommitOk();
    states := [Received(2), TESTING, ONE_TESTED, COMMITTING, ONE_REFUSED, LEFT];
    events := [Arrives(TWO_SESSIONS), Response(0, true, 0, TWO_SESSIONS), Response(1, true, 0, TWO_SESSIONS),
               Response(2, false, 0, TWO_SESSIONS), Response(3, true, 0, TWO_SESSIONS)];
  }

  // ---------- the request as the master updates it ----------

  class SetRequest {
    var phase: Phase
    var error: bool
    var outstanding: int
    var answered: bool
    var queue: map<nat, Pdu>
    var next: nat
    ghost var issued: map<nat, Kind>
    ghost var to: map<nat, nat>
    ghost var oked: set<nat>
    ghost var refused: set<nat>

    ghost function View(): State
      reads this
    {
      State(phase, error, outstanding, answered, queue, next, issued, to, oked, refused)
    }

    constructor (bindings: nat)
      ensures View() == Received(bindings)
    {
      phase, error, outstanding, answered, queue, next := Default, false, bindings, false, map[], 0;
      issued, to, oked, refused := map[], map[], {}, {};
    }

    method Queue(kind: Kind, session: nat)
      modifies this`queue, this`next, this`issued, this`to
      ensures View() == AddSetSubrequest(old(View()), kind, session)
    {
      if !HasUnsent(queue, session) {
        queue := queue[next := Pdu(session, kind, false)];
        issued, to := issued[next := kind], to[next := session];
        next := next + 1;
      }
    }

    method PerformPhase(kind: Kind, w: Work)
      modifies this`queue, this`next, this`issued, this`to, this`error, this`outstanding
      ensures View() == Perform(old(View()), kind, w)
    {
      hide AddSetSubrequest;
      var i := 0;
      while i < |w.sessions|
        invariant i <= |w.sessions| && View() == AddAll(old(View()), kind, w.sessions[..i])
        invariant error == old(error) && outstanding == old(outstanding)
      {
        assert w.sessions[..i + 1][..i] == w.sessions[..i];
        Queue(kind, w.sessions[i]);
        i := i + 1;
      }
      assert w.sessions[..i] == w.sessions;
      if w.error {
        error := true;
        outstanding := 0;
      } else {
        outstanding := outstanding - w.finished;
      }
    }

    /** The switch over the phases, whose arms fall through. */
    method ProcessSetRequest(plan: Plan)
      modifies this
      ensures View() == ProcessSet(old(View()), plan)
    {
      hide Perform;
      if phase == Default {
        phase := Prepare;
        PerformPhase(TestSet, plan.test);
        if plan.test.failed {
          queue := map[];
        }
        if queue != map[] {
          return;
        }
      }
      if phase == Prepare {
        if !error {
          if queue == map[] {
            phase := Commit;
            PerformPhase(CommitSet, plan.commit);
            outstanding := outstanding + 1;
          }
        } else {
          phase := Cleanup;
          PerformPhase(CleanupSet, plan.cleanup);
          outstanding := 0;
          return;
        }
        CommitArm(plan);
      } else if phase == Commit {
        CommitArm(plan);
      } else if phase == Undo {
        UndoArm();
      } else {
        outstanding := 0;
      }
    }

    method CommitArm(plan: Plan)
      modifies this
      ensures View() == AfterCommit(old(View()), plan)
    {
      hide Perform;
      if queue == map[] {
        if error {
          phase := Undo;
          PerformPhase(UndoSet, plan.undo);
          UndoArm();
        } else {
          phase := Cleanup;
          PerformPhase(CleanupSet, plan.cleanup);
          outstanding := 0;
        }
      }
    }

    method UndoArm()
      modifies this`outstanding
      ensures View() == AfterUndo(old(View()))
    {
      if queue == map[] {
        outstanding := 0;
      } else if outstanding <= 0 {
        outstanding := outstanding + 1;
      }
    }

    /** A response to PDU `p`, or its timeout, and the pass through the phases that follows it. */
    method ProcessSetResponse(p: nat, ok: bool, finished: nat, plan: Plan)
      requires p in queue && !answered && Sensible(plan)
      modifies this
      ensures View() == Step(old(View()), Response(p, ok, finished, plan))
    {
      hide ProcessSet, HasUnsent;
      var kind := queue[p].kind;
      queue := queue - {p};
      oked, refused := if ok then oked + {p} else oked, if ok then refused else refused + {p};
      if !ok {
        error := true;
        outstanding := 0;
      } else if kind == CommitSet {
        outstanding := outstanding - finished;
      }
      ProcessSetRequest(plan);
      FinalizeRequest();
    }

    method FinalizeRequest()
      modifies this`queue, this`answered
      ensures View() == Finalize(old(View()))
    {
      var unsent := Unsent(queue);
      var pending := queue != map[];
      queue := map p | p in queue && (queue[p].sent || queue[p].kind != CleanupSet) :: queue[p].(sent := true);
      if outstanding <= 0 || (unsent == {} && !pending) {
        answered := true;
      }
    }
  }
}
