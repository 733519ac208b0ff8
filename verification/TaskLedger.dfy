/** The mutable Ledger object (restscope/orchestration/ledger.py), proved against the transitions of LedgerModel. */
module Ledger {
  import opened Wrappers
  import opened Texts
  import opened LedgerModel
  import opened LedgerRuns

  class TaskLedger {
    const goalIds: seq<string>
    var revision: nat
    var status: RunStatus
    var revisions: seq<PlanRevision>
    var milestones: seq<Milestone>
    var tasks: seq<Task>
    var attempts: seq<Attempt>
    var active: Option<string>

    function Snapshot(): State
      reads this
    {
      State(goalIds, revision, status, revisions, milestones, tasks, attempts, active)
    }

    ghost predicate Valid()
      reads this
    {
      Inv(Snapshot())
    }

    constructor (goalIds: seq<string>)
      ensures Snapshot() == Initial(goalIds) && Valid()
    {
      this.goalIds := goalIds;
      revision, status, revisions, milestones, tasks, attempts, active := 0, Planning, [], [], [], [], None;
      new;
      InitialInv(goalIds);
    }

    method ApplyReplan(d: ReplanDecision) returns (error: Option<LedgerError>)
      requires Valid() && ValidReplan(d)
      modifies this
      ensures Valid()
      ensures match Replan(old(Snapshot()), d)
              case Ok(next) => error == None && Snapshot() == next
              case Err(e) => error == Some(e) && Snapshot() == old(Snapshot())
    {
      hide Inv, MilestoneId, PendingShapes, SupersededIds, SupersedesKnown, CurrentPendingIds, KnownMilestoneIds,
           RetireAll, NewMilestones, CreatedIds, NoRepeats;
      if d.expected != revision { return Some(StaleRevision); }
      if active.Some? { return Some(TaskActive); }
      if d.milestones == PendingShapes(milestones) && d.completed == [] { return Some(NoMaterialChange); }
      if !NoRepeats(d.completed) { return Some(DuplicateCompleted); }
      var completed := Elements(d.completed);
      var pending := set m | m in milestones && m.status == Pending && m.revision == revision :: m.id;
      assert pending == CurrentPendingIds(Snapshot()) by { CurrentPendingAre(Snapshot(), pending); }
      if !(completed <= pending) { return Some(NotCurrentPending); }
      var known := set m | m in milestones :: m.id;
      assert known == KnownMilestoneIds(Snapshot()) by { KnownAre(Snapshot(), known); }
      if !SupersedesKnown(d.milestones, known) { return Some(UnknownSuperseded); }
      ReplanKeeps(Snapshot(), d);

      var next := revision + 1;
      var superseded := SupersededIds(milestones, completed);
      var created := NewMilestones(|milestones|, next, d.milestones);
      var record := PlanRevision(next, d.reason, d.completed, superseded, CreatedIds(|milestones|, |created|));
      CreatedCount(|milestones|, next, d.milestones);
      milestones := RetireAll(milestones, completed) + created;
      revisions := revisions + [record];
      revision := next;
      status := Underway;
      return None;
    }

    method Dispatch(p: TaskProposal, expected: nat) returns (result: Result<Task, LedgerError>)
      requires Valid() && ValidProposal(p)
      modifies this
      ensures Valid()
      ensures match LedgerModel.Dispatch(old(Snapshot()), p, expected)
              case Ok(next) => Snapshot() == next && result == Ok(tasks[|tasks| - 1]) && active == Some(result.value.id)
              case Err(e) => Snapshot() == old(Snapshot()) && result == Err(e)
    {
      hide Inv, NoRepeats, TaskId, IsUnchangedRetry, AttemptIds, FindMilestone;
      if expected != revision { return Err(StaleRevision); }
      if active.Some? { return Err(TaskActive); }
      var found := FindMilestone(milestones, p.milestoneId);
      if found.None? { return Err(UnknownMilestone); }
      if found.value.status != Pending || found.value.revision != revision { return Err(MilestoneNotPending); }
      var known := set a | a in attempts :: a.id;
      assert known == AttemptIds(Snapshot()) by { AttemptIdsAre(Snapshot(), known); }
      if !(Elements(p.related) <= known) { return Err(UnknownAttempt); }
      var unchangedRetry := RejectUnchangedFailedRetry(p);
      if unchangedRetry { return Err(UnchangedFailedRetry); }
      DispatchKeeps(Snapshot(), p, expected);
      var task := Task(TaskId(|tasks| + 1), p.milestoneId, revision, p.objective, p.purpose, p.criteria, p.related,
                       p.retryReason, Running);
      tasks := tasks + [task];
      active := Some(task.id);
      return Ok(task);
    }

    /** One pass over the failed Tasks, stopping at the first repeat that cites too little. */
    method RejectUnchangedFailedRetry(p: TaskProposal) returns (rejected: bool)
      ensures rejected == IsUnchangedRetry(Snapshot(), p)
    {
      var i := 0;
      while i < |tasks|
        invariant 0 <= i <= |tasks|
        invariant forall k | 0 <= k < i ::
            tasks[k].status == Failed && SameWork(tasks[k], p) ==>
              p.retryReason.Some? && CitesFailureOf(Snapshot(), tasks[k], p)
      {
        var failed := tasks[i];
        if failed.status == Failed && SameWork(failed, p) {
          var failures := set a | a in attempts && a.taskId == failed.id && a.outcome == Failed :: a.id;
          if p.retryReason.None? || failures !! Elements(p.related) {
            CitedFailures(Snapshot(), failed, p, failures);
            return true;
          }
          CitedFailures(Snapshot(), failed, p, failures);
        }
        i := i + 1;
      }
      return false;
    }

    method AppendAttempt(r: TaskResult) returns (result: Result<Attempt, LedgerError>)
      requires Valid() && ValidResult(r)
      modifies this
      ensures Valid()
      ensures match LedgerModel.AppendAttempt(old(Snapshot()), r)
              case Ok(next) => Snapshot() == next && result == Ok(attempts[|attempts| - 1])
              case Err(e) => Snapshot() == old(Snapshot()) && result == Err(e)
    {
      hide Inv, AttemptId, FindTask, ReplaceTask, ReportsExactly, AllMet;
      if active != Some(r.taskId) { return Err(NotActiveTask); }
      CloseKeeps(Snapshot(), r.outcome, Structured(r));
      var task := FindTask(tasks, r.taskId).value;
      if !ReportsExactly(r.verdicts, Elements(CriterionIds(task.criteria))) { return Err(CriteriaMismatch); }
      if r.outcome == Completed && !AllMet(r.verdicts) { return Err(CompletedNeedsMet); }
      var attempt := Close(task, r.outcome, Structured(r));
      return Ok(attempt);
    }

    method AppendFailure(taskId: string, code: string, message: string) returns (result: Result<Attempt, LedgerError>)
      requires Valid()
      modifies this
      ensures Valid()
      ensures match LedgerModel.AppendFailure(old(Snapshot()), taskId, code, message)
              case Ok(next) => Snapshot() == next && result == Ok(attempts[|attempts| - 1])
              case Err(e) => Snapshot() == old(Snapshot()) && result == Err(e)
    {
      hide Inv, AttemptId, FindTask, ReplaceTask, Blank;
      if active != Some(taskId) { return Err(NotActiveTask); }
      CloseKeeps(Snapshot(), Failed, Failure(code, message));
      var task := FindTask(tasks, taskId).value;
      if Blank(code) || |code| > 120 { return Err(BadFailureCode); }
      if Blank(message) || |message| > 2000 { return Err(BadFailureMessage); }
      var attempt := Close(task, Failed, Failure(code, message));
      return Ok(attempt);
    }

    /** Append the Attempt, close the Task in place and clear the active identity. */
    method Close(task: Task, outcome: TaskStatus, payload: Payload) returns (attempt: Attempt)
      modifies this
      ensures Snapshot() == Recorded(old(Snapshot()), task, outcome, payload)
      ensures |attempts| > 0 && attempt == attempts[|attempts| - 1]
    {
      hide AttemptId, ReplaceTask;
      attempt := Attempt(AttemptId(|attempts| + 1), task.id, task.revision, outcome, payload);
      attempts := attempts + [attempt];
      tasks := ReplaceTask(tasks, task, outcome);
      active := None;
    }

    method Complete(d: CompleteDecision) returns (error: Option<LedgerError>)
      requires Valid()
      modifies this
      ensures Valid()
      ensures match LedgerModel.Complete(old(Snapshot()), d)
              case Ok(next) => error == None && Snapshot() == next
              case Err(e) => error == Some(e) && Snapshot() == old(Snapshot())
    {
      hide Inv, ReportsExactly;
      if d.expected != revision { return Some(StaleRevision); }
      if revision == 0 { return Some(NoPlan); }
      if active.Some? { return Some(TaskActive); }
      if !ReportsExactly(d.verdicts, Elements(goalIds)) { return Some(GoalCriteriaMismatch); }
      CompleteKeeps(Snapshot(), d);
      status := Finished;
      return None;
    }
  }

  lemma {:induction false} CurrentPendingAre(s: State, pending: set<string>)
    requires pending == set m | m in s.milestones && m.status == Pending && m.revision == s.revision :: m.id
    ensures pending == CurrentPendingIds(s)
  {
  }

  lemma {:induction false} KnownAre(s: State, known: set<string>)
    requires known == set m | m in s.milestones :: m.id
    ensures known == KnownMilestoneIds(s)
  {
  }

  lemma {:induction false} AttemptIdsAre(s: State, known: set<string>)
    requires known == set a | a in s.attempts :: a.id
    ensures known == AttemptIds(s)
  {
  }

  lemma {:induction false} CreatedCount(start: nat, revision: nat, proposals: seq<MilestoneProposal>)
    ensures |NewMilestones(start, revision, proposals)| == |proposals|
  {
  }

  /** The set of failed Attempts meets the citations exactly when one of them is cited. */
  lemma {:induction false} CitedFailures(s: State, t: Task, p: TaskProposal, failures: set<string>)
    requires failures == set a | a in s.attempts && a.taskId == t.id && a.outcome == Failed :: a.id
    ensures failures !! Elements(p.related) <==> !CitesFailureOf(s, t, p)
  {
    if CitesFailureOf(s, t, p) {
      var a :| a in s.attempts && a.taskId == t.id && a.outcome == Failed && a.id in p.related;
      assert a.id in failures && a.id in Elements(p.related);
    }
  }
}
