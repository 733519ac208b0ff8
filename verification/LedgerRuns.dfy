/** What every run of the Ledger keeps (restscope/orchestration/ledger.py). */
module LedgerRuns {
  import opened Wrappers
  import opened LedgerModel

  // ---------------------------------------------------------------- the invariant

  /** Identities are numbered in order of creation. */
  ghost predicate NumberedIds(s: State) {
    && (forall i | 0 <= i < |s.milestones| :: s.milestones[i].id == MilestoneId(i + 1))
    && (forall i | 0 <= i < |s.tasks| :: s.tasks[i].id == TaskId(i + 1))
    && (forall i | 0 <= i < |s.attempts| :: s.attempts[i].id == AttemptId(i + 1))
  }

  /** The n-th Attempt closed the n-th Task; a Task without Attempt is the one running. */
  ghost predicate AttemptsMatchTasks(s: State) {
    && |s.attempts| <= |s.tasks| <= |s.attempts| + 1
    && (forall i | 0 <= i < |s.attempts| ::
          && s.attempts[i].taskId == s.tasks[i].id
          && s.attempts[i].revision == s.tasks[i].revision
          && s.attempts[i].outcome == s.tasks[i].status
          && s.tasks[i].status != Running
          && (s.tasks[i].status == Failed <==> s.attempts[i].payload.Failure?))
    && (forall i | |s.attempts| <= i < |s.tasks| :: s.tasks[i].status == Running)
    && s.active == if |s.tasks| > |s.attempts| then Some(TaskId(|s.tasks|)) else None
  }

  ghost predicate NumberedRevisions(s: State) {
    && |s.revisions| == s.revision
    && (forall r | 0 <= r < |s.revisions| :: s.revisions[r].revision == r + 1)
    && (s.status == Planning <==> s.revision == 0)
  }

  /** Pending Milestones are exactly those of the current revision. */
  ghost predicate PendingAreCurrent(s: State) {
    forall i | 0 <= i < |s.milestones| ::
      && 1 <= s.milestones[i].revision <= s.revision
      && (s.milestones[i].status == Pending <==> s.milestones[i].revision == s.revision)
  }

  /** The record of revision r + 1 lists what it did to the plan of revision r, and nothing else. */
  ghost predicate RevisionsTellAll(s: State) {
    forall r, id | 0 <= r < |s.revisions| ::
      && (id in s.revisions[r].created <==> OfRevision(s, r + 1, id))
      && (id in s.revisions[r].completed <==> RetiredAs(s, r, Achieved, id))
      && (id in s.revisions[r].superseded <==> RetiredAs(s, r, Superseded, id))
  }

  ghost predicate OfRevision(s: State, r: nat, id: string) {
    exists i | 0 <= i < |s.milestones| :: s.milestones[i].id == id && s.milestones[i].revision == r
  }

  ghost predicate RetiredAs(s: State, r: nat, status: MilestoneStatus, id: string) {
    exists i | 0 <= i < |s.milestones| ::
      s.milestones[i].id == id && s.milestones[i].revision == r && s.milestones[i].status == status
  }

  /** A reopened Milestone is an earlier one, of an earlier revision. */
  ghost predicate SupersedesBack(s: State, i: nat)
    requires i < |s.milestones|
  {
    s.milestones[i].supersedes.Some? ==>
      exists j | 0 <= j < i :: s.milestones[j].id == s.milestones[i].supersedes.value
                               && s.milestones[j].revision < s.milestones[i].revision
  }

  /** A Task cites Attempts of earlier Tasks only. */
  ghost predicate CitesBack(s: State, i: nat)
    requires i < |s.tasks|
  {
    forall id | id in s.tasks[i].related :: exists j | 0 <= j < i && j < |s.attempts| :: s.attempts[j].id == id
  }

  /** References lead strictly backwards, and every Task belongs to a Milestone of its own revision. */
  ghost predicate ReferencesPointBack(s: State) {
    && (forall i | 0 <= i < |s.milestones| :: SupersedesBack(s, i))
    && (forall i | 0 <= i < |s.tasks| :: CitesBack(s, i))
    && (forall i | 0 <= i < |s.tasks| :: OfRevision(s, s.tasks[i].revision, s.tasks[i].milestoneId))
  }

  ghost predicate TaskBounds(s: State) {
    forall i | 0 <= i < |s.tasks| ::
      |s.tasks[i].related| <= MAX_RELATED && NoRepeats(s.tasks[i].related)
        && NoRepeats(CriterionIds(s.tasks[i].criteria))
  }

  predicate SameTaskWork(t: Task, u: Task) {
    t.objective == u.objective && t.purpose == u.purpose && t.criteria == u.criteria
  }

  /** Every repeat of failed work gives a reason and cites the failure. */
  ghost predicate RetriesCite(s: State) {
    forall i, k | 0 <= i < k < |s.tasks| && i < |s.attempts| && s.tasks[i].status == Failed
                  && SameTaskWork(s.tasks[i], s.tasks[k]) ::
      s.tasks[k].retryReason.Some? && AttemptId(i + 1) in s.tasks[k].related
  }

  /** Only the last 20 Milestones can belong to the current revision. */
  ghost predicate RecentPlan(s: State) {
    forall i | 0 <= i && i + MAX_MILESTONES < |s.milestones| :: s.milestones[i].revision < s.revision
  }

  ghost predicate Inv(s: State) {
    && NumberedIds(s) && AttemptsMatchTasks(s) && NumberedRevisions(s) && PendingAreCurrent(s) && RecentPlan(s)
    && RevisionsTellAll(s) && ReferencesPointBack(s) && TaskBounds(s) && RetriesCite(s)
  }

  // ---------------------------------------------------------------- runs

  datatype Event =
    | DoReplan(replan: ReplanDecision)
    | DoDispatch(proposal: TaskProposal, expected: nat)
    | DoAttempt(result: TaskResult)
    | DoFailure(taskId: string, code: string, message: string)
    | DoComplete(complete: CompleteDecision)

  /** The bounds the record types enforce before the Ledger sees a decision. */
  ghost predicate ValidEvent(ev: Event) {
    match ev
    case DoReplan(d) => ValidReplan(d)
    case DoDispatch(p, _) => ValidProposal(p)
    case DoAttempt(r) => ValidResult(r)
    case _ => true
  }

  function Try(s: State, ev: Event): Result<State, LedgerError> {
    match ev
    case DoReplan(d) => Replan(s, d)
    case DoDispatch(p, expected) => Dispatch(s, p, expected)
    case DoAttempt(r) => AppendAttempt(s, r)
    case DoFailure(taskId, code, message) => AppendFailure(s, taskId, code, message)
    case DoComplete(d) => Complete(s, d)
  }

  /** A rejected call changes nothing. */
  function Step(s: State, ev: Event): State {
    match Try(s, ev) case Ok(next) => next case Err(_) => s
  }

  function Run(s: State, events: seq<Event>): State {
    if events == [] then s else Step(Run(s, events[..|events| - 1]), events[|events| - 1])
  }

  // ---------------------------------------------------------------- each transition keeps it

  lemma {:induction false} InitialInv(goalIds: seq<string>)
    ensures Inv(Initial(goalIds))
  {
  }

  lemma {:induction false} FindTaskAt(s: State, n: nat)
    requires NumberedIds(s) && n < |s.tasks|
    ensures FindTask(s.tasks, TaskId(n + 1)) == Some(s.tasks[n])
  {
    FindTaskFrom(s.tasks, 0, n);
  }

  lemma {:induction false} FindTaskFrom(ts: seq<Task>, start: nat, n: nat)
    requires forall i | 0 <= i < |ts| :: ts[i].id == TaskId(start + i + 1)
    requires n < |ts|
    ensures FindTask(ts, TaskId(start + n + 1)) == Some(ts[n])
  {
    IdsInjective(start + 1, start + n + 1);
    if n > 0 {
      FindTaskFrom(ts[1..], start + 1, n - 1);
    }
  }

  lemma {:induction false} ReplaceTaskAt(ts: seq<Task>, n: nat, status: TaskStatus)
    requires n < |ts| && forall i | 0 <= i < n :: ts[i] != ts[n]
    ensures ReplaceTask(ts, ts[n], status) == ts[n := ts[n].(status := status)]
  {
    if n > 0 {
      ReplaceTaskAt(ts[1..], n - 1, status);
      assert ReplaceTask(ts, ts[n], status) == [ts[0]] + ts[1..][n - 1 := ts[n].(status := status)];
    }
  }

  /** The running Task is the last one, and closing it replaces exactly that one. */
  lemma {:induction false} RecordedShape(s: State, outcome: TaskStatus, payload: Payload)
    requires NumberedIds(s) && AttemptsMatchTasks(s) && s.active.Some?
    ensures |s.tasks| == |s.attempts| + 1 && s.active == Some(TaskId(|s.tasks|))
    ensures FindTask(s.tasks, s.active.value) == Some(s.tasks[|s.tasks| - 1])
    ensures var n := |s.tasks| - 1;
            var attempt := Attempt(AttemptId(n + 1), s.tasks[n].id, s.tasks[n].revision, outcome, payload);
            Recorded(s, s.tasks[n], outcome, payload)
            == s.(attempts := s.attempts + [attempt],
                  tasks := s.tasks[n := s.tasks[n].(status := outcome)],
                  active := None)
  {
    var n := |s.tasks| - 1;
    FindTaskAt(s, n);
    forall i | 0 <= i < n
      ensures s.tasks[i] != s.tasks[n]
    {
      IdsInjective(i + 1, n + 1);
    }
    ReplaceTaskAt(s.tasks, n, outcome);
  }

  /** Nothing about plans changes when Milestones and revisions stay. */
  lemma {:induction false} SamePlan(s: State, next: State)
    requires next.milestones == s.milestones && next.revisions == s.revisions && next.revision == s.revision
    ensures PendingAreCurrent(s) ==> PendingAreCurrent(next)
    ensures RevisionsTellAll(s) ==> RevisionsTellAll(next)
    ensures forall r, id :: OfRevision(next, r, id) == OfRevision(s, r, id)
    ensures forall i | 0 <= i < |s.milestones| :: SupersedesBack(next, i) == SupersedesBack(s, i)
  {
    assert forall r, st, id :: RetiredAs(next, r, st, id) == RetiredAs(s, r, st, id);
    assert forall r, id :: OfRevision(next, r, id) == OfRevision(s, r, id);
    if RevisionsTellAll(s) {
      forall r, id | 0 <= r < |s.revisions|
        ensures (id in s.revisions[r].created <==> OfRevision(next, r + 1, id))
                && (id in s.revisions[r].completed <==> RetiredAs(next, r, Achieved, id))
                && (id in s.revisions[r].superseded <==> RetiredAs(next, r, Superseded, id))
      {
        assert id in s.revisions[r].created <==> OfRevision(s, r + 1, id);
      }
    }
  }

  lemma {:induction false} RecordKeeps(s: State, outcome: TaskStatus, payload: Payload)
    requires Inv(s) && s.active.Some? && outcome != Running && (outcome == Failed <==> payload.Failure?)
    ensures |s.tasks| > 0 && Inv(Recorded(s, s.tasks[|s.tasks| - 1], outcome, payload))
  {
    hide Recorded, MilestoneId, TaskId, AttemptId, SupersedesBack, CitesBack, OfRevision, RevisionsTellAll,
         PendingAreCurrent, RetriesCite, TaskBounds, AttemptsMatchTasks;
    RecordedShape(s, outcome, payload);
    var n := |s.tasks| - 1;
    var next := Recorded(s, s.tasks[n], outcome, payload);
    SamePlan(s, next);
    RecordMatches(s, outcome, payload);
    RecordCites(s, outcome, payload);
    forall i | 0 <= i < |next.tasks|
      ensures CitesBack(next, i)
    {
      CitesBackKept(s, next, i);
    }
  }

  lemma {:induction false} RecordMatches(s: State, outcome: TaskStatus, payload: Payload)
    requires NumberedIds(s) && AttemptsMatchTasks(s) && s.active.Some?
    requires outcome != Running && (outcome == Failed <==> payload.Failure?)
    ensures |s.tasks| > 0 && AttemptsMatchTasks(Recorded(s, s.tasks[|s.tasks| - 1], outcome, payload))
  {
    hide Recorded, MilestoneId, TaskId, AttemptId;
    RecordedShape(s, outcome, payload);
  }

  lemma {:induction false} RecordCites(s: State, outcome: TaskStatus, payload: Payload)
    requires NumberedIds(s) && AttemptsMatchTasks(s) && s.active.Some? && TaskBounds(s) && RetriesCite(s)
    ensures |s.tasks| > 0
    ensures var next := Recorded(s, s.tasks[|s.tasks| - 1], outcome, payload); TaskBounds(next) && RetriesCite(next)
  {
    hide Recorded, MilestoneId, TaskId, AttemptId;
    RecordedShape(s, outcome, payload);
  }

  lemma {:induction false} CitesBackKept(s: State, next: State, i: nat)
    requires i < |s.tasks| && i < |next.tasks| && CitesBack(s, i)
    requires s.attempts <= next.attempts && next.tasks[i].related == s.tasks[i].related
    ensures CitesBack(next, i)
  {
    forall id | id in next.tasks[i].related
      ensures exists j | 0 <= j < i && j < |next.attempts| :: next.attempts[j].id == id
    {
      var j :| 0 <= j < i && j < |s.attempts| && s.attempts[j].id == id;
      assert next.attempts[j] == s.attempts[j];
    }
  }

  lemma {:induction false} DispatchKeeps(s: State, p: TaskProposal, expected: nat)
    requires Inv(s) && ValidProposal(p) && Dispatch(s, p, expected).Ok?
    ensures Inv(Dispatch(s, p, expected).value)
  {
    hide MilestoneId, TaskId, AttemptId, SupersedesBack, CitesBack, OfRevision, RevisionsTellAll, PendingAreCurrent,
         IsUnchangedRetry, NoRepeats, AttemptIds, FindMilestone;
    var next := Dispatch(s, p, expected).value;
    var n := |s.tasks|;
    SamePlan(s, next);
    TargetIsCurrent(s, p.milestoneId);
    forall i | 0 <= i < n
      ensures CitesBack(next, i)
    {
      CitesBackKept(s, next, i);
    }
    KnownAttemptsAreEarlier(s, next, p.related);
    forall i | 0 <= i < n && s.tasks[i].status == Failed && SameTaskWork(s.tasks[i], next.tasks[n])
      ensures p.retryReason.Some? && AttemptId(i + 1) in p.related
    {
      CitedAttempt(s, p, i);
    }
  }

  lemma {:induction false} KnownAttemptsAreEarlier(s: State, next: State, related: seq<string>)
    requires Elements(related) <= AttemptIds(s) && |s.attempts| == |s.tasks|
    requires |next.tasks| == |s.tasks| + 1 && next.tasks[|s.tasks|].related == related && next.attempts == s.attempts
    ensures CitesBack(next, |s.tasks|)
  {
    forall id | id in related
      ensures exists j | 0 <= j < |s.tasks| && j < |s.attempts| :: s.attempts[j].id == id
    {
      assert id in Elements(related);
      var a :| a in s.attempts && a.id == id;
    }
  }

  lemma {:induction false} TargetIsCurrent(s: State, id: string)
    requires FindMilestone(s.milestones, id).Some?
    requires FindMilestone(s.milestones, id).value.revision == s.revision
    ensures OfRevision(s, s.revision, id)
  {
    FindMilestoneIs(s.milestones, id);
  }

  lemma {:induction false} CitedAttempt(s: State, p: TaskProposal, i: nat)
    requires NumberedIds(s) && AttemptsMatchTasks(s) && !IsUnchangedRetry(s, p)
    requires i < |s.tasks| && s.tasks[i].status == Failed && SameWork(s.tasks[i], p)
    ensures p.retryReason.Some? && AttemptId(i + 1) in p.related
  {
    hide MilestoneId, TaskId, AttemptId;
    var t := s.tasks[i];
    assert t in s.tasks;
    assert CitesFailureOf(s, t, p);
    var a :| a in s.attempts && a.taskId == t.id && a.outcome == Failed && a.id in p.related;
    var j :| 0 <= j < |s.attempts| && s.attempts[j] == a;
    IdsInjective(i + 1, j + 1);
  }

  /** An earlier Task with the same work failed, and its Attempt is not cited with a reason. */
  ghost predicate RepeatsFailure(s: State, p: TaskProposal) {
    exists i | 0 <= i < |s.tasks| ::
      && s.tasks[i].status == Failed && s.tasks[i].objective == p.objective && s.tasks[i].purpose == p.purpose
      && s.tasks[i].criteria == p.criteria && (p.retryReason.None? || AttemptId(i + 1) !in p.related)
  }

  lemma {:induction false} RefusedRetryIs(s: State, p: TaskProposal)
    requires NumberedIds(s) && AttemptsMatchTasks(s)
    ensures IsUnchangedRetry(s, p) <==> RepeatsFailure(s, p)
  {
    hide MilestoneId, TaskId, AttemptId, IsUnchangedRetry;
    if !IsUnchangedRetry(s, p) {
      forall i | 0 <= i < |s.tasks| && s.tasks[i].status == Failed && SameWork(s.tasks[i], p)
        ensures p.retryReason.Some? && AttemptId(i + 1) in p.related
      {
        CitedAttempt(s, p, i);
      }
    } else {
      UncitedFailure(s, p);
    }
  }

  lemma {:induction false} UncitedFailure(s: State, p: TaskProposal)
    requires NumberedIds(s) && AttemptsMatchTasks(s) && IsUnchangedRetry(s, p)
    ensures RepeatsFailure(s, p)
  {
    hide MilestoneId, TaskId, AttemptId;
    var t :| t in s.tasks && t.status == Failed && SameWork(t, p)
             && (p.retryReason.None? || !CitesFailureOf(s, t, p));
    var i :| 0 <= i < |s.tasks| && s.tasks[i] == t;
    assert s.attempts[i] in s.attempts;
  }

  lemma {:induction false} FindMilestoneIs(ms: seq<Milestone>, id: string)
    ensures match FindMilestone(ms, id)
            case Some(m) => m in ms && m.id == id
            case None => forall m | m in ms :: m.id != id
  {
    if ms != [] && ms[0].id != id {
      FindMilestoneIs(ms[1..], id);
    }
  }

  // Replanning retires the current plan and appends the next one.

  lemma {:induction false} SupersededAre(ms: seq<Milestone>, completed: set<string>, id: string)
    ensures id in SupersededIds(ms, completed)
       <==> exists i | 0 <= i < |ms| :: ms[i].id == id && ms[i].status == Pending && id !in completed
  {
    if ms != [] {
      var before, last := ms[..|ms| - 1], ms[|ms| - 1];
      SupersededAre(before, completed, id);
      if i :| 0 <= i < |ms| && ms[i].id == id && ms[i].status == Pending && id !in completed {
        if i < |before| {
          assert before[i] == ms[i];
        }
      }
    }
  }

  /** Where each Milestone of the next state comes from. */
  lemma {:induction false} ReplannedMilestones(s: State, d: ReplanDecision)
    ensures var n, next := |s.milestones|, Replanned(s, d);
            && |next.milestones| == n + |d.milestones|
            && (forall i | 0 <= i < n :: next.milestones[i] == Retire(s.milestones[i], Elements(d.completed)))
            && (forall i | n <= i < |next.milestones| ::
                  && next.milestones[i].id == MilestoneId(i + 1)
                  && next.milestones[i].revision == s.revision + 1
                  && next.milestones[i].status == Pending
                  && next.milestones[i].supersedes == d.milestones[i - n].supersedes
                  && Shape(next.milestones[i]) == d.milestones[i - n])
  {
  }

  /** `id` names one of the Milestones a replan creates. */
  ghost predicate IsCreated(s: State, d: ReplanDecision, id: string) {
    exists i | 0 <= i < |d.milestones| :: CreatedIds(|s.milestones|, |d.milestones|)[i] == id
  }

  lemma {:induction false} OldRevisionsAfter(s: State, d: ReplanDecision, r: nat, id: string)
    requires PendingAreCurrent(s) && r <= s.revision
    ensures OfRevision(Replanned(s, d), r, id) <==> OfRevision(s, r, id)
    ensures r < s.revision ==> (RetiredAs(Replanned(s, d), r, Achieved, id) <==> RetiredAs(s, r, Achieved, id))
    ensures r < s.revision ==> (RetiredAs(Replanned(s, d), r, Superseded, id) <==> RetiredAs(s, r, Superseded, id))
  {
    hide MilestoneId, Replanned;
    var next, n := Replanned(s, d), |s.milestones|;
    ReplannedMilestones(s, d);
    assert forall i | 0 <= i < n :: next.milestones[i].id == s.milestones[i].id
                                    && next.milestones[i].revision == s.milestones[i].revision;
    assert forall i | 0 <= i < n && s.milestones[i].revision < s.revision :: next.milestones[i] == s.milestones[i];
  }

  lemma {:induction false} CurrentAfter(s: State, d: ReplanDecision, id: string)
    requires PendingAreCurrent(s)
    ensures RetiredAs(Replanned(s, d), s.revision, Achieved, id) <==> OfRevision(s, s.revision, id) && id in d.completed
    ensures RetiredAs(Replanned(s, d), s.revision, Superseded, id) <==>
              OfRevision(s, s.revision, id) && id !in d.completed
    ensures OfRevision(Replanned(s, d), s.revision + 1, id) <==> IsCreated(s, d, id)
  {
    hide MilestoneId, Replanned;
    var next, n := Replanned(s, d), |s.milestones|;
    ReplannedMilestones(s, d);
    assert forall i | 0 <= i < n && s.milestones[i].revision == s.revision ::
        next.milestones[i].id == s.milestones[i].id && next.milestones[i].revision == s.revision
        && next.milestones[i].status == if s.milestones[i].id in d.completed then Achieved else Superseded;
    var created := CreatedIds(n, |d.milestones|);
    assert forall i | 0 <= i < |d.milestones| :: next.milestones[n + i].id == created[i];
    if OfRevision(next, s.revision + 1, id) {
      var i :| 0 <= i < |next.milestones| && next.milestones[i].id == id
        && next.milestones[i].revision == s.revision + 1;
      assert created[i - n] == id;
    }
  }

  lemma {:induction false} LastRevisionLists(s: State, d: ReplanDecision, id: string)
    requires PendingAreCurrent(s) && Replan(s, d).Ok?
    ensures id in CreatedIds(|s.milestones|, |d.milestones|) <==> IsCreated(s, d, id)
    ensures id in d.completed <==> OfRevision(s, s.revision, id) && id in d.completed
    ensures id in SupersededIds(s.milestones, Elements(d.completed))
       <==> OfRevision(s, s.revision, id) && id !in d.completed
  {
    hide MilestoneId, Replanned, PendingShapes;
    if id in d.completed {
      assert id in Elements(d.completed);
      assert id in CurrentPendingIds(s);
      var m :| m in s.milestones && m.revision == s.revision && m.id == id;
    }
    SupersededAre(s.milestones, Elements(d.completed), id);
  }

  lemma {:induction false} ReplanTells(s: State, d: ReplanDecision)
    requires NumberedRevisions(s) && PendingAreCurrent(s) && RevisionsTellAll(s) && Replan(s, d).Ok?
    ensures RevisionsTellAll(Replanned(s, d))
  {
    var next := Replanned(s, d);
    forall r, id | 0 <= r < |next.revisions|
      ensures (id in next.revisions[r].created <==> OfRevision(next, r + 1, id))
              && (id in next.revisions[r].completed <==> RetiredAs(next, r, Achieved, id))
              && (id in next.revisions[r].superseded <==> RetiredAs(next, r, Superseded, id))
    {
      RevisionTells(s, d, r, id);
    }
  }

  lemma {:induction false} RevisionTells(s: State, d: ReplanDecision, r: nat, id: string)
    requires NumberedRevisions(s) && PendingAreCurrent(s) && RevisionsTellAll(s) && Replan(s, d).Ok?
    requires r < |Replanned(s, d).revisions|
    ensures var next := Replanned(s, d);
            && (id in next.revisions[r].created <==> OfRevision(next, r + 1, id))
            && (id in next.revisions[r].completed <==> RetiredAs(next, r, Achieved, id))
            && (id in next.revisions[r].superseded <==> RetiredAs(next, r, Superseded, id))
  {
    hide OfRevision, RetiredAs, PendingAreCurrent, CreatedIds, SupersededIds, Replan, RetireAll, NewMilestones,
         IsCreated;
    if r < |s.revisions| {
      OldRevisionsAfter(s, d, r, id);
      OldRevisionsAfter(s, d, r + 1, id);
    } else {
      CurrentAfter(s, d, id);
      LastRevisionLists(s, d, id);
    }
  }

  lemma {:induction false} ReplanPointsBack(s: State, d: ReplanDecision, i: nat)
    requires PendingAreCurrent(s) && Replan(s, d).Ok? && i < |Replanned(s, d).milestones|
    requires forall k | 0 <= k < |s.milestones| :: SupersedesBack(s, k)
    ensures SupersedesBack(Replanned(s, d), i)
  {
    hide MilestoneId, Replanned, PendingShapes, CurrentPendingIds;
    var next, n := Replanned(s, d), |s.milestones|;
    ReplannedMilestones(s, d);
    assert forall k | 0 <= k < n :: next.milestones[k].id == s.milestones[k].id
                                    && next.milestones[k].revision == s.milestones[k].revision;
    if i >= n {
      if next.milestones[i].supersedes.Some? {
        assert d.milestones[i - n] in d.milestones;
        var m :| m in s.milestones && m.id == next.milestones[i].supersedes.value;
        var j :| 0 <= j < n && s.milestones[j] == m;
        assert next.milestones[j].id == m.id;
      }
    } else {
      assert SupersedesBack(s, i);
    }
  }

  lemma {:induction false} ReplanKeeps(s: State, d: ReplanDecision)
    requires Inv(s) && ValidReplan(d) && Replan(s, d).Ok?
    ensures Inv(Replanned(s, d))
  {
    hide MilestoneId, TaskId, AttemptId, Replan, SupersedesBack, CitesBack, OfRevision, RevisionsTellAll, RetireAll,
         NewMilestones, PendingShapes, SupersededIds, CreatedIds;
    var next, n := Replanned(s, d), |s.milestones|;
    ReplannedMilestones(s, d);
    ReplanTells(s, d);
    forall i | 0 <= i < |next.milestones|
      ensures SupersedesBack(next, i)
    {
      ReplanPointsBack(s, d, i);
    }
    forall i | 0 <= i < |next.tasks|
      ensures CitesBack(next, i) && OfRevision(next, next.tasks[i].revision, next.tasks[i].milestoneId)
    {
      CitesBackKept(s, next, i);
      RevisionOfTask(s, i);
      OldRevisionsAfter(s, d, s.tasks[i].revision, s.tasks[i].milestoneId);
    }
  }

  lemma {:induction false} RevisionOfTask(s: State, i: nat)
    requires Inv(s) && i < |s.tasks|
    ensures s.tasks[i].revision <= s.revision
  {
    assert OfRevision(s, s.tasks[i].revision, s.tasks[i].milestoneId);
  }

  lemma {:induction false} StepKeeps(s: State, ev: Event)
    requires Inv(s) && ValidEvent(ev)
    ensures Inv(Step(s, ev))
  {
    hide Inv, Recorded, Replanned, IsUnchangedRetry;
    match ev
    case DoReplan(d) =>
      if Replan(s, d).Ok? { ReplanKeeps(s, d); }
    case DoDispatch(p, expected) =>
      if Dispatch(s, p, expected).Ok? { DispatchKeeps(s, p, expected); }
    case DoAttempt(r) =>
      if AppendAttempt(s, r).Ok? {
        CloseKeeps(s, r.outcome, Structured(r));
      }
    case DoFailure(taskId, code, message) =>
      if AppendFailure(s, taskId, code, message).Ok? {
        CloseKeeps(s, Failed, Failure(code, message));
      }
    case DoComplete(d) =>
      if Complete(s, d).Ok? { CompleteKeeps(s, d); }
  }

  lemma {:induction false} CloseKeeps(s: State, outcome: TaskStatus, payload: Payload)
    requires Inv(s) && s.active.Some? && outcome != Running && (outcome == Failed <==> payload.Failure?)
    ensures FindTask(s.tasks, s.active.value).Some?
    ensures Inv(Recorded(s, FindTask(s.tasks, s.active.value).value, outcome, payload))
  {
    RecordedShape(s, outcome, payload);
    RecordKeeps(s, outcome, payload);
  }

  lemma {:induction false} CompleteKeeps(s: State, d: CompleteDecision)
    requires Inv(s) && Complete(s, d).Ok?
    ensures Inv(Complete(s, d).value)
  {
    hide MilestoneId, TaskId, AttemptId, SupersedesBack, CitesBack, OfRevision, RevisionsTellAll, PendingAreCurrent;
    var next := Complete(s, d).value;
    SamePlan(s, next);
    forall i | 0 <= i < |next.tasks|
      ensures CitesBack(next, i)
    {
      CitesBackKept(s, next, i);
    }
  }

  /** Every state of every run satisfies the invariant. */
  lemma {:induction false} RunKeeps(goalIds: seq<string>, events: seq<Event>)
    requires forall ev | ev in events :: ValidEvent(ev)
    ensures Inv(Run(Initial(goalIds), events))
  {
    hide Inv;
    if events == [] {
      InitialInv(goalIds);
    } else {
      var before, last := events[..|events| - 1], events[|events| - 1];
      assert last in events;
      RunKeeps(goalIds, before);
      StepKeeps(Run(Initial(goalIds), before), last);
    }
  }

  // ---------------------------------------------------------------- a replan changes the plan

  lemma {:induction false} PendingConcat(xs: seq<Milestone>, ys: seq<Milestone>)
    ensures PendingShapes(xs + ys) == PendingShapes(xs) + PendingShapes(ys)
  {
    hide Shape;
    if ys == [] {
      assert xs + ys == xs;
    } else {
      assert (xs + ys)[..|xs + ys| - 1] == xs + ys[..|ys| - 1];
      PendingConcat(xs, ys[..|ys| - 1]);
    }
  }

  lemma {:induction false} NonePending(ms: seq<Milestone>)
    requires forall m | m in ms :: m.status != Pending
    ensures PendingShapes(ms) == []
  {
    if ms != [] {
      NonePending(ms[..|ms| - 1]);
    }
  }

  lemma {:induction false} NewArePending(start: nat, revision: nat, proposals: seq<MilestoneProposal>)
    ensures PendingShapes(NewMilestones(start, revision, proposals)) == proposals
  {
    hide MilestoneId;
    if proposals != [] {
      var before, ms := proposals[..|proposals| - 1], NewMilestones(start, revision, proposals);
      assert ms[..|ms| - 1] == NewMilestones(start, revision, before);
      NewArePending(start, revision, before);
    }
  }

  /** What is pending after a replan is exactly the new plan, in order. */
  lemma {:induction false} PendingAfterReplan(s: State, d: ReplanDecision)
    ensures PendingShapes(Replanned(s, d).milestones) == d.milestones
  {
    hide MilestoneId;
    var retired := RetireAll(s.milestones, Elements(d.completed));
    NonePending(retired);
    NewArePending(|s.milestones|, s.revision + 1, d.milestones);
    PendingConcat(retired, NewMilestones(|s.milestones|, s.revision + 1, d.milestones));
  }

  /** So an accepted replan that completes nothing changes the plan, and repeating it is refused. */
  lemma {:induction false} RepeatedReplanRefused(s: State, d: ReplanDecision)
    requires Replan(s, d).Ok?
    ensures d.completed == [] ==> PendingShapes(Replanned(s, d).milestones) != PendingShapes(s.milestones)
    ensures Replan(Replanned(s, d), d.(expected := s.revision + 1, completed := [])) == Err(NoMaterialChange)
  {
    hide PendingShapes, RetireAll, NewMilestones, CurrentPendingIds, KnownMilestoneIds, SupersedesKnown, NoRepeats;
    PendingAfterReplan(s, d);
  }

  // ---------------------------------------------------------------- history only grows

  ghost predicate TaskKept(before: Task, after: Task) {
    after == before || (before.status == Running && after == before.(status := after.status))
  }

  ghost predicate MilestoneKept(before: Milestone, after: Milestone) {
    after == before || (before.status == Pending && after == before.(status := after.status))
  }

  /** Attempts and revisions are only appended; a Task or Milestone changes at most its open status. */
  ghost predicate Grows(s: State, next: State) {
    && s.attempts <= next.attempts && s.revisions <= next.revisions
    && s.goalIds == next.goalIds && s.revision <= next.revision
    && |s.tasks| <= |next.tasks| && (forall i | 0 <= i < |s.tasks| :: TaskKept(s.tasks[i], next.tasks[i]))
    && |s.milestones| <= |next.milestones|
    && (forall i | 0 <= i < |s.milestones| :: MilestoneKept(s.milestones[i], next.milestones[i]))
  }

  lemma {:induction false} StepGrows(s: State, ev: Event)
    requires Inv(s)
    ensures Grows(s, Step(s, ev))
  {
    hide Recorded, Inv, IsUnchangedRetry, Replanned, MilestoneId, TaskId, AttemptId;
    match ev
    case DoReplan(d) =>
      ReplanGrows(s, d);
    case DoAttempt(r) =>
      if AppendAttempt(s, r).Ok? { CloseGrows(s, r.outcome, Structured(r)); }
    case DoFailure(_, code, message) =>
      if Step(s, ev) != s { CloseGrows(s, Failed, Failure(code, message)); }
    case _ =>
  }

  lemma {:induction false} ReplanGrows(s: State, d: ReplanDecision)
    ensures Grows(s, Replanned(s, d))
  {
    hide MilestoneId;
    ReplannedMilestones(s, d);
  }

  lemma {:induction false} CloseGrows(s: State, outcome: TaskStatus, payload: Payload)
    requires Inv(s) && s.active.Some?
    ensures FindTask(s.tasks, s.active.value).Some?
    ensures Grows(s, Recorded(s, FindTask(s.tasks, s.active.value).value, outcome, payload))
  {
    hide Recorded, MilestoneId, TaskId, AttemptId, ReferencesPointBack, RevisionsTellAll, RetriesCite;
    RecordedShape(s, outcome, payload);
  }

  lemma {:induction false} GrowsTransitive(a: State, b: State, c: State)
    requires Grows(a, b) && Grows(b, c)
    ensures Grows(a, c)
  {
    forall i | 0 <= i < |a.tasks|
      ensures TaskKept(a.tasks[i], c.tasks[i])
    {
      assert TaskKept(a.tasks[i], b.tasks[i]) && TaskKept(b.tasks[i], c.tasks[i]);
    }
    forall i | 0 <= i < |a.milestones|
      ensures MilestoneKept(a.milestones[i], c.milestones[i])
    {
      assert MilestoneKept(a.milestones[i], b.milestones[i]) && MilestoneKept(b.milestones[i], c.milestones[i]);
    }
  }

  /** Along any run, later states only add to earlier ones; what is terminal never changes. */
  lemma {:induction false} RunGrows(goalIds: seq<string>, events: seq<Event>, n: nat)
    requires n <= |events| && forall ev | ev in events :: ValidEvent(ev)
    ensures Grows(Run(Initial(goalIds), events[..n]), Run(Initial(goalIds), events))
  {
    hide Inv, Grows, Step;
    if n == |events| {
      assert events[..n] == events;
      GrowsItself(Run(Initial(goalIds), events));
    } else {
      var before := events[..|events| - 1];
      assert before[..n] == events[..n];
      RunGrows(goalIds, before, n);
      RunKeeps(goalIds, before);
      StepGrows(Run(Initial(goalIds), before), events[|events| - 1]);
      GrowsTransitive(Run(Initial(goalIds), events[..n]), Run(Initial(goalIds), before), Run(Initial(goalIds), events));
    }
  }

  lemma {:induction false} GrowsItself(s: State)
    ensures Grows(s, s)
  {
  }

  // ---------------------------------------------------------------- how often the same work can fail

  /** Indices of the failed Tasks with the same work as t. */
  ghost function FailedTwins(s: State, t: Task): set<nat> {
    set i: nat | i < |s.tasks| && s.tasks[i].status == Failed && SameTaskWork(s.tasks[i], t)
  }

  lemma {:induction false} CitedCount(twins: set<nat>, related: seq<string>)
    requires forall i | i in twins :: AttemptId(i + 1) in related
    ensures |twins| <= |related|
  {
    hide AttemptId;
    if twins != {} {
      var i :| i in twins;
      var k :| 0 <= k < |related| && related[k] == AttemptId(i + 1);
      var rest := related[..k] + related[k + 1..];
      forall j | j in twins - {i}
        ensures AttemptId(j + 1) in rest
      {
        IdsInjective(i + 1, j + 1);
        var m :| 0 <= m < |related| && related[m] == AttemptId(j + 1);
        assert rest[if m < k then m else m - 1] == related[m];
      }
      CitedCount(twins - {i}, rest);
    }
  }

  lemma {:induction false} LargestOf(xs: set<nat>) returns (m: nat)
    requires xs != {}
    ensures m in xs && forall x | x in xs :: x <= m
  {
    var x :| x in xs;
    if xs == {x} {
      m := x;
    } else {
      assert xs - {x} != {};
      m := LargestOf(xs - {x});
      assert forall y | y in xs :: y == x || y in xs - {x};
      if x > m {
        m := x;
      }
    }
  }

  /** No reachable state holds more than 21 failed Tasks with the same work. */
  lemma {:induction false} AtMostTwentyOneFailures(s: State, t: Task)
    requires Inv(s)
    ensures |FailedTwins(s, t)| <= MAX_RELATED + 1
  {
    hide AttemptId, NumberedIds, ReferencesPointBack, RevisionsTellAll, NoRepeats;
    var twins := FailedTwins(s, t);
    if twins != {} {
      var last := LargestOf(twins);
      forall i | i in twins - {last}
        ensures AttemptId(i + 1) in s.tasks[last].related
      {
        assert i < last && SameTaskWork(s.tasks[i], s.tasks[last]);
      }
      CitedCount(twins - {last}, s.tasks[last].related);
    }
  }

  /** After 21 failures of the same work no proposal can dispatch it again. */
  lemma {:induction false} TwentySecondIsRefused(s: State, p: TaskProposal, expected: nat)
    requires Inv(s) && ValidProposal(p)
    requires |FailedTwins(s, Dispatched(s, p))| > MAX_RELATED
    ensures Dispatch(s, p, expected).Err?
  {
    hide AttemptId, ReferencesPointBack, RevisionsTellAll, NoRepeats, IsUnchangedRetry;
    var twins := FailedTwins(s, Dispatched(s, p));
    if !IsUnchangedRetry(s, p) {
      forall i | i in twins
        ensures AttemptId(i + 1) in p.related
      {
        CitedAttempt(s, p, i);
      }
      CitedCount(twins, p.related);
    }
  }
}
