/** The bound on repeated failures is attained (restscope/orchestration/ledger.py). */
module LedgerBound {
  import opened Wrappers
  import opened Texts
  import opened Indexes
  import opened LedgerModel
  import opened LedgerRuns

  const CRITERIA := [Criterion("criterion_1", "answered")]
  const PLAN := MilestoneProposal("title", "purpose", ["criterion"], None)

  function Cited(n: nat): seq<string> {
    seq(n, i requires 0 <= i < n => AttemptId(i + 1))
  }

  function Proposal(n: nat): TaskProposal {
    TaskProposal(MilestoneId(1), "objective", "purpose", CRITERIA, Cited(n), Some("again"))
  }

  function FailedTask(i: nat): Task {
    Task(TaskId(i + 1), MilestoneId(1), 1, "objective", "purpose", CRITERIA, Cited(i), Some("again"), Failed)
  }

  function FailedAttempt(i: nat): Attempt {
    Attempt(AttemptId(i + 1), TaskId(i + 1), 1, Failed, Failure("code", "message"))
  }

  /** One Milestone and n identical failures, each citing all before it. */
  function AfterFailures(goalIds: seq<string>, n: nat): State {
    State(goalIds, 1, Underway, [PlanRevision(1, "reason", [], [], [MilestoneId(1)])],
          [Milestone(MilestoneId(1), 1, "title", "purpose", ["criterion"], Pending, None)],
          seq(n, i requires 0 <= i < n => FailedTask(i)), seq(n, i requires 0 <= i < n => FailedAttempt(i)), None)
  }

  function Events(n: nat): seq<Event> {
    if n == 0 then [DoReplan(ReplanDecision(0, "reason", [], [PLAN]))]
    else Events(n - 1) + [DoDispatch(Proposal(n - 1), 1)] + [DoFailure(TaskId(n), "code", "message")]
  }

  lemma {:induction false} CitedIsValid(n: nat)
    requires n <= MAX_RELATED
    ensures ValidProposal(Proposal(n))
  {
    hide AttemptId, NoRepeats;
    forall i, j | 0 <= i < j < n
      ensures Cited(n)[i] != Cited(n)[j]
    {
      IdsInjective(i + 1, j + 1);
    }
    UniqueCount(Cited(n));
    UniqueCount(CriterionIds(CRITERIA));
  }

  lemma {:induction false} EventsAreValid(n: nat)
    requires n <= MAX_RELATED + 1
    ensures forall ev | ev in Events(n) :: ValidEvent(ev)
  {
    hide ValidProposal, Proposal, TaskId, NoRepeats;
    if n == 0 {
      UniqueCount([]);
    } else {
      EventsAreValid(n - 1);
      CitedIsValid(n - 1);
      assert forall ev | ev in Events(n) ::
          ev in Events(n - 1) || ev == DoDispatch(Proposal(n - 1), 1) || ev == DoFailure(TaskId(n), "code", "message");
    }
  }

  /** The next repeat is dispatched. */
  lemma {:induction false} NextDispatches(goalIds: seq<string>, n: nat)
    ensures var s := AfterFailures(goalIds, n);
            Dispatch(s, Proposal(n), 1)
            == Ok(s.(tasks := s.tasks + [FailedTask(n).(status := Running)], active := Some(TaskId(n + 1))))
  {
    hide MilestoneId, TaskId, AttemptId;
    var s, p := AfterFailures(goalIds, n), Proposal(n);
    assert FindMilestone(s.milestones, MilestoneId(1)) == Some(s.milestones[0]);
    forall id | id in Elements(p.related)
      ensures id in AttemptIds(s)
    {
      var i :| 0 <= i < n && p.related[i] == id;
      assert s.attempts[i] in s.attempts && s.attempts[i].id == id;
    }
    forall t | t in s.tasks
      ensures CitesFailureOf(s, t, p)
    {
      var i :| 0 <= i < n && s.tasks[i] == t;
      assert s.attempts[i] in s.attempts && p.related[i] == s.attempts[i].id;
    }
    assert !IsUnchangedRetry(s, p);
  }

  /** And its failure leads to one more. */
  lemma {:induction false} NextFails(goalIds: seq<string>, n: nat)
    requires Inv(AfterFailures(goalIds, n)) && n <= MAX_RELATED
    ensures Dispatch(AfterFailures(goalIds, n), Proposal(n), 1).Ok?
    ensures AppendFailure(Dispatch(AfterFailures(goalIds, n), Proposal(n), 1).value, TaskId(n + 1), "code", "message")
            == Ok(AfterFailures(goalIds, n + 1))
  {
    hide MilestoneId, TaskId, AttemptId, Inv, Recorded, IsUnchangedRetry, Dispatch, FindTask;
    var s := AfterFailures(goalIds, n);
    NextDispatches(goalIds, n);
    CitedIsValid(n);
    DispatchKeeps(s, Proposal(n), 1);
    var running := Dispatch(s, Proposal(n), 1).value;
    InvShape(running);
    RecordedShape(running, Failed, Failure("code", "message"));
    TextIsFine();
    var next := Recorded(running, running.tasks[n], Failed, Failure("code", "message"));
    assert next.tasks == AfterFailures(goalIds, n + 1).tasks;
    assert next.attempts == AfterFailures(goalIds, n + 1).attempts;
  }

  lemma {:induction false} InvShape(s: State)
    requires Inv(s)
    ensures NumberedIds(s) && AttemptsMatchTasks(s)
  {
  }

  lemma {:induction false} TextIsFine()
    ensures !Blank("code") && !Blank("message")
  {
    assert "code"[0] in "code" && "message"[0] in "message";
  }

  lemma {:induction false} RunTwo(s: State, events: seq<Event>, a: Event, b: Event)
    ensures Run(s, events + [a] + [b]) == Step(Step(Run(s, events), a), b)
  {
    hide Step;
    var one := events + [a];
    assert one[..|one| - 1] == events && (one + [b])[..|one|] == one;
  }

  /** Dispatch and failure together add one. */
  lemma {:induction false} OneMoreFailure(goalIds: seq<string>, n: nat)
    requires Inv(AfterFailures(goalIds, n)) && n <= MAX_RELATED
    ensures Step(Step(AfterFailures(goalIds, n), DoDispatch(Proposal(n), 1)),
              DoFailure(TaskId(n + 1), "code", "message"))
            == AfterFailures(goalIds, n + 1)
  {
    hide MilestoneId, TaskId, AttemptId, Inv, Dispatch, AppendFailure, Proposal, AfterFailures;
    NextFails(goalIds, n);
  }

  lemma {:induction false} RunReaches(goalIds: seq<string>, n: nat)
    requires n <= MAX_RELATED + 1
    ensures Run(Initial(goalIds), Events(n)) == AfterFailures(goalIds, n)
  {
    hide MilestoneId, TaskId, AttemptId, Inv, Step, Run, Proposal, AfterFailures, Initial, ValidEvent;
    if n == 0 {
      FirstPlan(goalIds);
    } else {
      RunReaches(goalIds, n - 1);
      EventsAreValid(n - 1);
      RunKeeps(goalIds, Events(n - 1));
      RunTwo(Initial(goalIds), Events(n - 1), DoDispatch(Proposal(n - 1), 1), DoFailure(TaskId(n), "code", "message"));
      OneMoreFailure(goalIds, n - 1);
    }
  }

  lemma {:induction false} FirstPlan(goalIds: seq<string>)
    ensures Run(Initial(goalIds), Events(0)) == AfterFailures(goalIds, 0)
  {
    hide MilestoneId;
    var s, d := Initial(goalIds), ReplanDecision(0, "reason", [], [PLAN]);
    UniqueCount([]);
    assert PendingShapes([]) == [] && d.milestones != [];
    assert Replan(s, d) == Ok(Replanned(s, d));
    assert Events(0)[..0] == [];
    var next := Replanned(s, d);
    assert next.milestones == AfterFailures(goalIds, 0).milestones;
    assert CreatedIds(0, 1) == [MilestoneId(1)] && SupersededIds([], {}) == [] && Elements<string>([]) == {};
    assert next.revisions == AfterFailures(goalIds, 0).revisions;
  }

  /** Twenty-one failures of one piece of work do occur in a run, so the bound cannot be lowered. */
  lemma {:induction false} TwentyOneFailuresHappen(goalIds: seq<string>)
    ensures forall ev | ev in Events(MAX_RELATED + 1) :: ValidEvent(ev)
    ensures |FailedTwins(Run(Initial(goalIds), Events(MAX_RELATED + 1)), FailedTask(0))| == MAX_RELATED + 1
  {
    hide Events, ValidEvent, FailedTwins, Run, AfterFailures, FailedTask;
    var n := MAX_RELATED + 1;
    EventsAreValid(n);
    RunReaches(goalIds, n);
    AllAreTwins(goalIds, n);
  }

  lemma {:induction false} AllAreTwins(goalIds: seq<string>, n: nat)
    ensures |FailedTwins(AfterFailures(goalIds, n), FailedTask(0))| == n
  {
    hide TaskId, MilestoneId, AttemptId, Cited, CRITERIA, All;
    assert FailedTwins(AfterFailures(goalIds, n), FailedTask(0)) == All(n);
  }
}
