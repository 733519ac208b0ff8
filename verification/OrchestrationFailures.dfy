/** Runs of accepted turns that end badly (restscope/orchestration/runtime.py and contracts.py). */
module OrchestrationFailures {
  import opened Wrappers
  import opened Decimal
  import opened Texts
  import opened LedgerModel
  import opened LedgerRuns
  import opened LedgerBound
  import opened OrchestrationContracts
  import opened OrchestrationRuntime

  const NOTHING := Raised("", "Error")

  function PlanTurn(completed: seq<string>, supersedes: Option<string>): Turn {
    Turn(ReplanWork(ReplanDecision(0, "reason", completed, [PLAN.(supersedes := supersedes)])), NOTHING)
  }

  function WorkTurn(criterion: string, e: Execution): Turn {
    var criteria := [Criterion(criterion, "answered")];
    Turn(DispatchWork(TaskProposal(MilestoneId(1), "objective", "purpose", criteria, [], None), 1), e)
  }

  /** One Milestone is planned and nothing has been tried. */
  function Planned(): State {
    AfterFailures(GOAL_IDS, 0)
  }

  function Dispatching(criterion: string): State {
    var task := Dispatched(Planned(), WorkTurn(criterion, NOTHING).decision.proposal);
    Planned().(tasks := [task], active := Some(TaskId(1)))
  }

  // ---------------------------------------------------------------- accepted turns

  lemma {:induction false} GoalLengths()
    ensures forall id | id in GOAL_IDS :: |id| <= 20
    ensures |MilestoneId(1)| <= 20 && |RevisionAlias(0)| <= 20 && |RevisionAlias(1)| <= 20 && |TaskId(1)| <= 20
  {
    assert Dec(0) == "0" && Dec(1) == "1" && Dec(2) == "2" && Dec(3) == "3";
  }

  lemma {:induction false} FirstView()
    ensures Reached(Initial(GOAL_IDS)) && AliasesFit(OrchestratorAliases(Initial(GOAL_IDS)))
    ensures OrchestratorAliases(Initial(GOAL_IDS)) == [RevisionAlias(0)] + GOAL_IDS
  {
    hide Inv, AliasesFit, GoalId, RevisionAlias;
    InitialInv(GOAL_IDS);
    GoalLengths();
    OrchestratorAliasesFit(Initial(GOAL_IDS));
    assert IdsOf(RecentAttempts([])) == [];
    assert GOAL_IDS + [] + [] == GOAL_IDS;
  }

  lemma {:induction false} PlannedView()
    ensures Reached(Planned()) && AliasesFit(OrchestratorAliases(Planned()))
    ensures OrchestratorAliases(Planned()) == [RevisionAlias(1)] + (GOAL_IDS + [MilestoneId(1)])
  {
    hide Inv, AliasesFit, GoalId, RevisionAlias, MilestoneId;
    ReachesPlan();
    GoalLengths();
    OrchestratorAliasesFit(Planned());
    PendingOne();
    assert IdsOf(RecentAttempts([])) == [];
    assert GOAL_IDS + [MilestoneId(1)] + [] == GOAL_IDS + [MilestoneId(1)];
  }

  lemma {:induction false} PendingOne()
    ensures PendingIds(Planned().milestones) == [MilestoneId(1)]
  {
    hide MilestoneId;
    var ms := Planned().milestones;
    assert PendingIds(ms[..0]) == [];
  }

  lemma {:induction false} ReachesPlan()
    ensures Replan(Initial(GOAL_IDS), PlanTurn([], None).decision.replan) == Ok(Planned()) && Inv(Planned())
  {
    hide MilestoneId, GOAL_IDS, Inv;
    var s, d := Initial(GOAL_IDS), PlanTurn([], None).decision.replan;
    UniqueCount([]);
    assert PLAN.(supersedes := None) == PLAN;
    assert PendingShapes([]) == [];
    assert Replan(s, d) == Ok(Replanned(s, d));
    var next := Replanned(s, d);
    assert next.milestones == Planned().milestones;
    assert CreatedIds(0, 1) == [MilestoneId(1)] && SupersededIds([], {}) == [] && Elements<string>([]) == {};
    assert next.revisions == Planned().revisions;
    assert Planned().tasks == [] && Planned().attempts == [];
    assert next == Planned();
    InitialInv(GOAL_IDS);
    ReplanKeeps(s, d);
  }

  /** The validator accepts a first plan, whatever offered identities it lists as completed. */
  lemma {:induction false} PlanAccepted(completed: seq<string>, supersedes: Option<string>)
    requires Unique(completed) && |completed| <= 3 && (forall id | id in completed :: id in GOAL_IDS)
    requires supersedes.Some? ==> |supersedes.value| <= 20
    ensures var t := PlanTurn(completed, supersedes);
            Bounded(t) && OrchestratorAccepts(t.decision, OrchestratorAliases(Initial(GOAL_IDS)))
  {
    hide GOAL_IDS, RevisionAlias, ParseNat, IsRevisionAlias, IsSpace, Unique;
    var t, s := PlanTurn(completed, supersedes), Initial(GOAL_IDS);
    UniqueCount(completed);
    FirstView();
    RevisionAliasReads(0);
    assert OrchestratorAliases(s)[1..] == GOAL_IDS;
    PlanChars(supersedes);
    ErrorName();
  }

  lemma {:induction false} PlanChars(supersedes: Option<string>)
    requires supersedes.Some? ==> |supersedes.value| <= 20
    ensures ProposalsChars([PLAN.(supersedes := supersedes)]) <= 100
  {
    var ms := [PLAN.(supersedes := supersedes)];
    assert ProposalsChars(ms[..0]) == 0;
    var criteria := ["criterion"];
    assert PLAN.criteria == criteria && StringsChars(criteria[..0]) == 0;
    assert StringsChars(criteria) == 9;
  }

  lemma {:induction false} ErrorName()
    ensures "Error" != "" && !IsSpace("Error"[0])
  {
    assert "Error"[0] == 'E';
  }

  /** It accepts a dispatch of the planned Milestone, for one criterion of any short identity. */
  lemma {:induction false} WorkAccepted(criterion: string, e: Execution)
    requires HasPrefix(criterion, "criterion_") && |criterion| <= 40
    requires e == NOTHING || (e.Ended? && e.code == "code")
    ensures var t := WorkTurn(criterion, e);
            Bounded(t) && OrchestratorAccepts(t.decision, OrchestratorAliases(Planned()))
              && AcceptedExecution(Planned(), t)
  {
    hide GOAL_IDS, RevisionAlias, MilestoneId, ParseNat, IsRevisionAlias, TaskChars, Bounded, OrchestratorAliases,
         HasPrefix, Planned, AliasesFit, Reached, AcceptedExecution;
    var t := WorkTurn(criterion, e);
    WorkBounded(criterion, e);
    NothingReturned(t);
    PlannedView();
    RevisionAliasReads(1);
    assert OrchestratorAliases(Planned())[1..] == GOAL_IDS + [MilestoneId(1)];
    assert MilestoneId(1) in GOAL_IDS + [MilestoneId(1)];
    WorkChars(criterion);
  }

  lemma {:induction false} NothingReturned(t: Turn)
    requires !t.execution.Returned?
    ensures AcceptedExecution(Planned(), t)
  {
  }

  lemma {:induction false} WorkBounded(criterion: string, e: Execution)
    requires HasPrefix(criterion, "criterion_")
    requires e == NOTHING || (e.Ended? && e.code == "code")
    ensures Bounded(WorkTurn(criterion, e))
  {
    hide MilestoneId, IsSpace, HasPrefix, NoRepeats, Blank;
    var p := WorkTurn(criterion, e).decision.proposal;
    UniqueCount(CriterionIds(p.criteria));
    UniqueCount([]);
    KindsDiffer(1);
    ErrorName();
    TextIsFine();
  }

  lemma {:induction false} WorkChars(criterion: string)
    requires |criterion| <= 40
    ensures TaskChars(WorkTurn(criterion, NOTHING).decision.proposal) <= 200
  {
    GoalLengths();
    var cs := [Criterion(criterion, "answered")];
    assert CriteriaChars(cs[..0]) == 0;
    assert CriteriaChars(cs) == |criterion| + 8;
    assert StringsChars([]) == 0;
  }

  lemma {:induction false} WorkDispatches(criterion: string)
    ensures Dispatch(Planned(), WorkTurn(criterion, NOTHING).decision.proposal, 1) == Ok(Dispatching(criterion))
    ensures Dispatched(Planned(), WorkTurn(criterion, NOTHING).decision.proposal).id == TaskId(1)
  {
    hide MilestoneId, TaskId, GOAL_IDS;
    var s := Planned();
    assert FindMilestone(s.milestones, MilestoneId(1)) == Some(s.milestones[0]);
    assert s.tasks == [] && s.attempts == [];
    var p := WorkTurn(criterion, NOTHING).decision.proposal;
    assert !IsUnchangedRetry(s, p) && Elements(p.related) == {};
    assert s.tasks + [Dispatched(s, p)] == [Dispatched(s, p)];
  }

  // ---------------------------------------------------------------- replans that the Ledger refuses

  /** Completing a Goal criterion: offered, hence accepted, but no Milestone. */
  lemma {:induction false} GoalIsNoMilestone()
    ensures var turns := [PlanTurn([GoalId(1)], None)];
            && Accepted(Initial(GOAL_IDS), true, turns)
            && RunFrom(Initial(GOAL_IDS), true, turns) == Aborted(Initial(GOAL_IDS), ReplanRefused(NotCurrentPending))
  {
    hide AliasesFit, OrchestratorAliases, OrchestratorAccepts, Bounded, ExplainedAbort;
    var s, t := Initial(GOAL_IDS), PlanTurn([GoalId(1)], None);
    FirstView();
    assert GOAL_IDS[0] == GoalId(1);
    PlanAccepted([GoalId(1)], None);
    UniqueCount([GoalId(1)]);
    assert GoalId(1) in Elements([GoalId(1)]);
    assert Replan(s, t.decision.replan) == Err(NotCurrentPending);
  }

  /** Reopening a Milestone that never existed. */
  lemma {:induction false} UnknownMilestoneReopened()
    ensures var turns := [PlanTurn([], Some("milestone_1"))];
            && Accepted(Initial(GOAL_IDS), true, turns)
            && RunFrom(Initial(GOAL_IDS), true, turns) == Aborted(Initial(GOAL_IDS), ReplanRefused(UnknownSuperseded))
  {
    hide AliasesFit, OrchestratorAliases, OrchestratorAccepts, Bounded, ExplainedAbort;
    var s, t := Initial(GOAL_IDS), PlanTurn([], Some("milestone_1"));
    FirstView();
    PlanAccepted([], Some("milestone_1"));
    UniqueCount([]);
    assert PendingShapes([]) == [];
    assert t.decision.replan.milestones[0] in t.decision.replan.milestones;
    assert Replan(s, t.decision.replan) == Err(UnknownSuperseded);
  }

  // ---------------------------------------------------------------- failures that cannot be recorded

  lemma {:induction false} AfterPlan(t: Turn)
    requires Bounded(t) && t.decision.DispatchWork? && OrchestratorAccepts(t.decision, OrchestratorAliases(Planned()))
    requires AcceptedExecution(Planned(), t)
    ensures var turns := [PlanTurn([], None), t];
            && RunFrom(Initial(GOAL_IDS), true, turns)
               == RunFrom(Planned(), false, [t])
            && (TakeTurn(Planned(), false, t).Stop? ==> Accepted(Initial(GOAL_IDS), true, turns))
  {
    hide AliasesFit, OrchestratorAliases, OrchestratorAccepts, Bounded, Replan, Planned, DispatchTurn,
         AcceptedExecution;
    var turns := [PlanTurn([], None), t];
    FirstView();
    ReachesPlan();
    PlanAccepted([], None);
    assert turns[1..] == [t];
    assert turns[0] == PlanTurn([], None);
    PlanRunsNothing(turns[0]);
  }

  lemma {:induction false} PlanRunsNothing(t: Turn)
    requires t.decision.ReplanWork?
    ensures AcceptedExecution(Initial(GOAL_IDS), t)
  {
  }

  /** A Task Executor that ends with a message of one space leaves its Task running and aborts the run. */
  lemma {:induction false} BlankMessageAborts()
    ensures var turns := [PlanTurn([], None), WorkTurn("criterion_1", Ended("code", " "))];
            && Accepted(Initial(GOAL_IDS), true, turns)
            && RunFrom(Initial(GOAL_IDS), true, turns)
               == Aborted(Dispatching("criterion_1"), FailureRefused(BadFailureMessage))
  {
    hide Accepted, Bounded, OrchestratorAccepts, OrchestratorAliases, AcceptedExecution, LedgerModel.Dispatch,
         AliasesFit, Planned, TaskId, IsSpace, Execute, Dispatched, Dispatching, ExecutorAliases;
    var t := WorkTurn("criterion_1", Ended("code", " "));
    WorkAccepted("criterion_1", Ended("code", " "));
    AfterPlan(t);
    PlannedView();
    WorkDispatches("criterion_1");
    ShortCriterionFits("criterion_1");
    BlankIsRefused("criterion_1");
  }

  lemma {:induction false} ShortCriterionFits(criterion: string)
    requires HasPrefix(criterion, "criterion_")
    ensures AliasesFit(ExecutorAliases(Dispatched(Planned(), WorkTurn(criterion, NOTHING).decision.proposal))) <==>
              |criterion| <= 20
  {
    hide AliasesFit, TaskId, Planned, HasPrefix;
    var task := Dispatched(Planned(), WorkTurn(criterion, NOTHING).decision.proposal);
    WorkDispatches(criterion);
    GoalLengths();
    UniqueCount(CriterionIds(task.criteria));
    assert CriterionIds(task.criteria) == [criterion];
    ExecutorAliasesFit(task, 1);
    assert ExecutorAliases(task) == [TaskId(1), criterion];
    assert criterion in [TaskId(1), criterion];
  }

  lemma {:induction false} BlankIsRefused(criterion: string)
    ensures Execute(Dispatching(criterion), TaskId(1), Ended("code", " "))
            == Stop(Aborted(Dispatching(criterion), FailureRefused(BadFailureMessage)))
  {
    hide TaskId, MilestoneId, GOAL_IDS, IsSpace;
    var s := Dispatching(criterion);
    WorkDispatches(criterion);
    assert FindTask(s.tasks, TaskId(1)) == Some(s.tasks[0]);
    TextIsFine();
    assert Blank(" ") by { assert IsSpace(' ') by { SpaceIsSpace(); } }
  }

  lemma {:induction false} SpaceIsSpace()
    ensures IsSpace(' ')
  {
  }

  /** A criterion identity of 21 characters passes the validator, and its Task is left running when the run aborts. */
  lemma {:induction false} LongCriterionAborts()
    ensures var turns := [PlanTurn([], None), WorkTurn("criterion_12345678901", NOTHING)];
            && Accepted(Initial(GOAL_IDS), true, turns)
            && RunFrom(Initial(GOAL_IDS), true, turns)
               == Aborted(Dispatching("criterion_12345678901"), TaskAliasesRejected)
            && Dispatching("criterion_12345678901").active == Some(TaskId(1))
  {
    hide Accepted, Bounded, OrchestratorAccepts, OrchestratorAliases, AcceptedExecution, LedgerModel.Dispatch,
         AliasesFit, Planned, TaskId, Execute, Dispatched, ExecutorAliases;
    var t := WorkTurn("criterion_12345678901", NOTHING);
    assert |"criterion_12345678901"| == 21;
    WorkAccepted("criterion_12345678901", NOTHING);
    AfterPlan(t);
    PlannedView();
    WorkDispatches("criterion_12345678901");
    ShortCriterionFits("criterion_12345678901");
  }
}
