/**
 The identities offered to each System Agent and the validators in front of the Ledger
 (restscope/orchestration/contracts.py, restscope/orchestration/runtime.py).
 */
module OrchestrationContracts {
  import opened Wrappers
  import opened Decimal
  import opened LedgerModel
  import opened LedgerRuns

  // ---------------------------------------------------------------- the Goal of one run

  function GoalId(n: nat): string {
    "goal_" + Dec(n)
  }

  /** The fixed mission assesses three questions. */
  const GOAL_IDS: seq<string> := [GoalId(1), GoalId(2), GoalId(3)]

  // ---------------------------------------------------------------- offered aliases

  function RevisionAlias(n: nat): string {
    "revision_" + Dec(n)
  }

  function PendingIds(ms: seq<Milestone>): seq<string> {
    if ms == [] then []
    else PendingIds(ms[..|ms| - 1]) + (if ms[|ms| - 1].status == Pending then [ms[|ms| - 1].id] else [])
  }

  const RECENT_ATTEMPTS := 20

  function RecentAttempts(attempts: seq<Attempt>): seq<Attempt> {
    if |attempts| <= RECENT_ATTEMPTS then attempts else attempts[|attempts| - RECENT_ATTEMPTS..]
  }

  function IdsOf(attempts: seq<Attempt>): seq<string> {
    seq(|attempts|, i requires 0 <= i < |attempts| => attempts[i].id)
  }

  function OrchestratorAliases(s: State): seq<string> {
    [RevisionAlias(s.revision)] + (s.goalIds + PendingIds(s.milestones) + IdsOf(RecentAttempts(s.attempts)))
  }

  function ExecutorAliases(t: Task): seq<string> {
    [t.id] + CriterionIds(t.criteria)
  }

  // ---------------------------------------------------------------- text budgets

  function StringsChars(xs: seq<string>): nat {
    if xs == [] then 0 else StringsChars(xs[..|xs| - 1]) + |xs[|xs| - 1]|
  }

  function OptionChars(x: Option<string>): nat {
    match x case None => 0 case Some(s) => |s|
  }

  function ProposalsChars(ms: seq<MilestoneProposal>): nat {
    if ms == [] then 0
    else
      var m := ms[|ms| - 1];
      ProposalsChars(ms[..|ms| - 1]) + |m.title| + |m.purpose| + StringsChars(m.criteria) + OptionChars(m.supersedes)
  }

  function CriteriaChars(cs: seq<Criterion>): nat {
    if cs == [] then 0
    else CriteriaChars(cs[..|cs| - 1]) + |cs[|cs| - 1].id| + |cs[|cs| - 1].description|
  }

  function TaskChars(p: TaskProposal): nat {
    |p.milestoneId| + |p.objective| + |p.purpose| + CriteriaChars(p.criteria) + StringsChars(p.related)
    + OptionChars(p.retryReason)
  }

  function VerdictName(v: VerdictStatus): string {
    match v case Met => "met" case NotMet => "not_met" case Undetermined => "unknown"
  }

  function OutcomeName(t: TaskStatus): string {
    match t
    case Running => "running"
    case Completed => "completed"
    case Partial => "partial"
    case Blocked => "blocked"
    case Failed => "failed"
  }

  function VerdictsChars(vs: seq<Verdict>): nat {
    if vs == [] then 0
    else
      var v := vs[|vs| - 1];
      VerdictsChars(vs[..|vs| - 1]) + |v.criterionId| + |VerdictName(v.status)| + |v.explanation|
  }

  function ResultChars(r: TaskResult): nat {
    |r.taskId| + |OutcomeName(r.outcome)| + VerdictsChars(r.verdicts) + StringsChars(r.notes)
  }

  const MAX_REPLAN_TEXT_CHARS := 4000
  const MAX_TASK_TEXT_CHARS := 4000
  const MAX_TASK_RESULT_TEXT_CHARS := 6000

  // ---------------------------------------------------------------- validators

  datatype Decision =
    | ReplanWork(replan: ReplanDecision)
    | DispatchWork(proposal: TaskProposal, expectedRevision: nat)
    | CompleteRun(complete: CompleteDecision)

  function Expected(d: Decision): nat {
    match d
    case ReplanWork(r) => r.expected
    case DispatchWork(_, expected) => expected
    case CompleteRun(c) => c.expected
  }

  datatype OutputError =
    | NoRevisionDeclared | InvalidRevisionDeclared | WrongRevision | UnknownCompletedIds | ReplanTooLong
    | MilestoneNotOffered | UnknownRelatedIds | TaskTooLong | GoalsNotAssessedOnce
    | NoTaskDeclared | WrongTask | CriteriaNotReportedOnce | CompletedWithoutAllMet | ResultTooLong

  predicate HasPrefix(s: string, prefix: string) {
    prefix <= s
  }

  predicate IsRevisionAlias(s: string) {
    HasPrefix(s, "revision_") && |s| > 9 && AllDigits(s[9..])
  }

  function OfferedGoals(aliases: set<string>): set<string> {
    set a | a in aliases && HasPrefix(a, "goal_")
  }

  method ValidateOrchestratorOutput(d: Decision, aliases: seq<string>) returns (errors: seq<OutputError>)
    ensures aliases == [] ==> errors == [NoRevisionDeclared]
    ensures aliases != [] && !IsRevisionAlias(aliases[0]) ==> errors == [InvalidRevisionDeclared]
    ensures aliases != [] && IsRevisionAlias(aliases[0]) ==>
              var offered := Elements(aliases[1..]);
              && (WrongRevision in errors <==> Expected(d) != ParseNat(aliases[0][9..]))
              && (UnknownCompletedIds in errors <==> d.ReplanWork? && !(Elements(d.replan.completed) <= offered))
              && (ReplanTooLong in errors <==>
                   d.ReplanWork? && ProposalsChars(d.replan.milestones) > MAX_REPLAN_TEXT_CHARS)
              && (MilestoneNotOffered in errors <==> d.DispatchWork? && d.proposal.milestoneId !in offered)
              && (UnknownRelatedIds in errors <==> d.DispatchWork? && !(Elements(d.proposal.related) <= offered))
              && (TaskTooLong in errors <==> d.DispatchWork? && TaskChars(d.proposal) > MAX_TASK_TEXT_CHARS)
              && (GoalsNotAssessedOnce in errors
                  <==> d.CompleteRun? && !ReportsExactly(d.complete.verdicts, OfferedGoals(offered)))
    ensures errors == [] <==> OrchestratorAccepts(d, aliases)
  {
    hide ParseNat, AllDigits, ProposalsChars, TaskChars, ReportsExactly, Elements;
    if aliases == [] { return [NoRevisionDeclared]; }
    if !IsRevisionAlias(aliases[0]) { return [InvalidRevisionDeclared]; }
    errors := [];
    if Expected(d) != ParseNat(aliases[0][9..]) { errors := errors + [WrongRevision]; }
    var offered := Elements(aliases[1..]);
    match d
    case ReplanWork(r) =>
      if !(Elements(r.completed) <= offered) { errors := errors + [UnknownCompletedIds]; }
      if ProposalsChars(r.milestones) > MAX_REPLAN_TEXT_CHARS { errors := errors + [ReplanTooLong]; }
    case DispatchWork(p, _) =>
      if p.milestoneId !in offered { errors := errors + [MilestoneNotOffered]; }
      if !(Elements(p.related) <= offered) { errors := errors + [UnknownRelatedIds]; }
      if TaskChars(p) > MAX_TASK_TEXT_CHARS { errors := errors + [TaskTooLong]; }
    case CompleteRun(c) =>
      if !ReportsExactly(c.verdicts, OfferedGoals(offered)) { errors := errors + [GoalsNotAssessedOnce]; }
  }

  method ValidateTaskExecutionOutput(r: TaskResult, aliases: seq<string>) returns (errors: seq<OutputError>)
    ensures aliases == [] ==> errors == [NoTaskDeclared]
    ensures aliases != [] ==>
              && (WrongTask in errors <==> r.taskId != aliases[0])
              && (CriteriaNotReportedOnce in errors <==> !ReportsExactly(r.verdicts, Elements(aliases[1..])))
              && (CompletedWithoutAllMet in errors <==> r.outcome == Completed && !AllMet(r.verdicts))
              && (ResultTooLong in errors <==> ResultChars(r) > MAX_TASK_RESULT_TEXT_CHARS)
    ensures errors == [] <==> ExecutorAccepts(r, aliases)
  {
    hide ReportsExactly, ResultChars, AllMet, Elements;
    if aliases == [] { return [NoTaskDeclared]; }
    errors := [];
    if r.taskId != aliases[0] { errors := errors + [WrongTask]; }
    if !ReportsExactly(r.verdicts, Elements(aliases[1..])) { errors := errors + [CriteriaNotReportedOnce]; }
    if r.outcome == Completed && !AllMet(r.verdicts) { errors := errors + [CompletedWithoutAllMet]; }
    if ResultChars(r) > MAX_TASK_RESULT_TEXT_CHARS { errors := errors + [ResultTooLong]; }
  }

  predicate OrchestratorAccepts(d: Decision, aliases: seq<string>) {
    && aliases != [] && IsRevisionAlias(aliases[0]) && Expected(d) == ParseNat(aliases[0][9..])
    && match d
       case ReplanWork(r) => Elements(r.completed) <= Elements(aliases[1..])
         && ProposalsChars(r.milestones) <= MAX_REPLAN_TEXT_CHARS
       case DispatchWork(p, _) =>
         && p.milestoneId in Elements(aliases[1..]) && Elements(p.related) <= Elements(aliases[1..])
         && TaskChars(p) <= MAX_TASK_TEXT_CHARS
       case CompleteRun(c) => ReportsExactly(c.verdicts, OfferedGoals(Elements(aliases[1..])))
  }

  predicate ExecutorAccepts(r: TaskResult, aliases: seq<string>) {
    && aliases != [] && r.taskId == aliases[0] && ReportsExactly(r.verdicts, Elements(aliases[1..]))
    && (r.outcome == Completed ==> AllMet(r.verdicts)) && ResultChars(r) <= MAX_TASK_RESULT_TEXT_CHARS
  }

  // ---------------------------------------------------------------- what the aliases are

  /** The states the runtime loop reaches: its Goal is the fixed one. */
  ghost predicate Reached(s: State) {
    Inv(s) && s.goalIds == GOAL_IDS
  }

  lemma {:induction false} RevisionAliasReads(n: nat)
    ensures IsRevisionAlias(RevisionAlias(n)) && ParseNat(RevisionAlias(n)[9..]) == n
  {
    ParseDec(n);
    assert RevisionAlias(n)[9..] == Dec(n);
  }

  lemma {:induction false} PendingIdsAre(ms: seq<Milestone>, id: string)
    ensures id in PendingIds(ms) <==> exists i | 0 <= i < |ms| :: ms[i].status == Pending && ms[i].id == id
  {
    if ms != [] {
      var before := ms[..|ms| - 1];
      PendingIdsAre(before, id);
      if i :| 0 <= i < |ms| - 1 && ms[i].status == Pending && ms[i].id == id {
        assert before[i] == ms[i];
      }
    }
  }

  /** Identities of distinct Milestones are distinct. */
  ghost predicate Numbered(ms: seq<Milestone>) {
    forall i | 0 <= i < |ms| :: ms[i].id == MilestoneId(i + 1)
  }

  lemma {:induction false} PendingIdsUnique(ms: seq<Milestone>)
    requires Numbered(ms)
    ensures Unique(PendingIds(ms))
  {
    hide MilestoneId;
    if ms != [] {
      var before, last := ms[..|ms| - 1], ms[|ms| - 1];
      PendingIdsUnique(before);
      PendingIdsAre(before, last.id);
      if i :| 0 <= i < |before| && before[i].status == Pending && before[i].id == last.id {
        IdsInjective(i + 1, |ms|);
      }
    }
  }

  /** Nothing is pending among the first n. */
  lemma {:induction false} PendingIdsFew(ms: seq<Milestone>, n: nat)
    requires forall i | 0 <= i < n && i < |ms| :: ms[i].status != Pending
    ensures |PendingIds(ms)| <= if n <= |ms| then |ms| - n else 0
  {
    if ms != [] {
      PendingIdsFew(ms[..|ms| - 1], n);
    }
  }

  lemma {:induction false} IdsUnique(attempts: seq<Attempt>, start: nat)
    requires forall i | 0 <= i < |attempts| :: attempts[i].id == AttemptId(start + i + 1)
    ensures Unique(IdsOf(attempts))
  {
    hide AttemptId;
    forall i, j | 0 <= i < j < |attempts|
      ensures attempts[i].id != attempts[j].id
    {
      IdsInjective(start + i + 1, start + j + 1);
    }
  }

  lemma {:induction false} AttemptIdsUnique(s: State)
    requires NumberedIds(s)
    ensures Unique(IdsOf(RecentAttempts(s.attempts))) && |IdsOf(RecentAttempts(s.attempts))| <= RECENT_ATTEMPTS
  {
    hide AttemptId, MilestoneId, TaskId, Unique;
    var recent := RecentAttempts(s.attempts);
    IdsUnique(recent, |s.attempts| - |recent|);
  }

  /** One letter tells the four kinds of identities apart. */
  lemma {:induction false} KindsDiffer(n: nat)
    ensures RevisionAlias(n)[0] == 'r' && GoalId(n)[0] == 'g' && MilestoneId(n)[0] == 'm' && AttemptId(n)[0] == 'a'
    ensures HasPrefix(GoalId(n), "goal_") && !HasPrefix(MilestoneId(n), "goal_") && !HasPrefix(AttemptId(n), "goal_")
    ensures HasPrefix(MilestoneId(n), "milestone_") && !HasPrefix(GoalId(n), "milestone_")
    ensures !HasPrefix(AttemptId(n), "milestone_")
    ensures HasPrefix(AttemptId(n), "attempt_") && !HasPrefix(GoalId(n), "attempt_")
    ensures !HasPrefix(MilestoneId(n), "attempt_")
  {
    ghost var m, g, a := MilestoneId(n), GoalId(n), AttemptId(n);
    assert m[0] == 'm' && g[0] == 'g' && a[0] == 'a';
    assert "goal_"[0] == 'g' && "milestone_"[0] == 'm' && "attempt_"[0] == 'a';
  }

  lemma {:induction false} Offered(s: State, id: string)
    requires Reached(s)
    ensures id in s.goalIds ==> exists n: nat :: id == GoalId(n)
    ensures id in PendingIds(s.milestones) ==> exists n: nat :: id == MilestoneId(n)
    ensures id in IdsOf(RecentAttempts(s.attempts)) ==> exists n: nat :: id == AttemptId(n)
  {
    hide AttemptId, MilestoneId, TaskId, GoalId, Inv;
    PendingIdsAre(s.milestones, id);
    assert NumberedIds(s) by { InvParts(s); }
    if id in PendingIds(s.milestones) {
      var i :| 0 <= i < |s.milestones| && s.milestones[i].status == Pending && s.milestones[i].id == id;
      assert id == MilestoneId(i + 1);
    }
    var recent := RecentAttempts(s.attempts);
    var start := |s.attempts| - |recent|;
    if id in IdsOf(recent) {
      var i :| 0 <= i < |recent| && recent[i].id == id;
      assert recent[i] == s.attempts[start + i];
      assert id == AttemptId(start + i + 1);
    }
  }

  lemma {:induction false} InvParts(s: State)
    requires Inv(s)
    ensures NumberedIds(s) && AttemptsMatchTasks(s) && PendingAreCurrent(s) && RecentPlan(s) && NumberedRevisions(s)
  {
  }

  lemma {:induction false} GoalsUnique()
    ensures Unique(GOAL_IDS)
  {
    assert Dec(1) == "1" && Dec(2) == "2" && Dec(3) == "3";
    assert GoalId(1)[5] == '1' && GoalId(2)[5] == '2' && GoalId(3)[5] == '3';
  }

  lemma {:induction false} UniqueAppend(xs: seq<string>, ys: seq<string>)
    requires Unique(xs) && Unique(ys) && forall x | x in xs :: x !in ys
    ensures Unique(xs + ys)
  {
    forall i, j | 0 <= i < j < |xs + ys|
      ensures (xs + ys)[i] != (xs + ys)[j]
    {
      assert (xs + ys)[j] == if j < |xs| then xs[j] else ys[j - |xs|];
      assert i < |xs| ==> xs[i] in xs;
    }
  }

  /** The identities offered for one decision never collide, and there are at most 44 of them. */
  lemma {:induction false} AliasesUniqueAndFew(s: State)
    requires Reached(s)
    ensures Unique(OrchestratorAliases(s)) && |OrchestratorAliases(s)| <= 44
  {
    hide AttemptId, MilestoneId, TaskId, GoalId, RevisionAlias, PendingIds, RecentAttempts, IdsOf, Inv;
    InvParts(s);
    var goals, pending, recent := s.goalIds, PendingIds(s.milestones), IdsOf(RecentAttempts(s.attempts));
    GoalsUnique();
    PendingIdsUnique(s.milestones);
    PendingCount(s);
    AttemptIdsUnique(s);
    forall id
      ensures id in goals ==> |id| > 0 && id[0] == 'g'
      ensures id in pending ==> |id| > 0 && id[0] == 'm'
      ensures id in recent ==> |id| > 0 && id[0] == 'a'
    {
      FirstLetters(s, id);
    }
    UniqueAppend(goals, pending);
    UniqueAppend(goals + pending, recent);
    KindsDiffer(s.revision);
    UniqueAppend([RevisionAlias(s.revision)], goals + pending + recent);
  }

  lemma {:induction false} FirstLetters(s: State, id: string)
    requires Reached(s)
    ensures id in s.goalIds ==> |id| > 0 && id[0] == 'g'
    ensures id in PendingIds(s.milestones) ==> |id| > 0 && id[0] == 'm'
    ensures id in IdsOf(RecentAttempts(s.attempts)) ==> |id| > 0 && id[0] == 'a'
  {
    hide AttemptId, MilestoneId, TaskId, GoalId, RevisionAlias, PendingIds, RecentAttempts, IdsOf, Inv;
    Offered(s, id);
    forall n: nat
      ensures |GoalId(n)| > 0 && GoalId(n)[0] == 'g'
      ensures |MilestoneId(n)| > 0 && MilestoneId(n)[0] == 'm'
      ensures |AttemptId(n)| > 0 && AttemptId(n)[0] == 'a'
    {
      KindsDiffer(n);
    }
  }

  lemma {:induction false} PendingCount(s: State)
    requires PendingAreCurrent(s) && RecentPlan(s)
    ensures |PendingIds(s.milestones)| <= MAX_MILESTONES
  {
    PendingIdsFew(s.milestones, if |s.milestones| > MAX_MILESTONES then |s.milestones| - MAX_MILESTONES else 0);
  }

  // ---------------------------------------------------------------- what the validators accept, the Ledger accepts

  /** Offered identities by kind. */
  lemma {:induction false} OfferedByKind(s: State, id: string)
    requires Reached(s)
    ensures id in Elements(OrchestratorAliases(s)[1..])
       <==> id in s.goalIds || id in PendingIds(s.milestones) || id in IdsOf(RecentAttempts(s.attempts))
    ensures id in s.goalIds ==> HasPrefix(id, "goal_") && !HasPrefix(id, "milestone_") && !HasPrefix(id, "attempt_")
    ensures id in PendingIds(s.milestones) ==>
              HasPrefix(id, "milestone_") && !HasPrefix(id, "goal_") && !HasPrefix(id, "attempt_")
    ensures id in IdsOf(RecentAttempts(s.attempts)) ==>
              HasPrefix(id, "attempt_") && !HasPrefix(id, "goal_") && !HasPrefix(id, "milestone_")
  {
    hide AttemptId, MilestoneId, TaskId, GoalId, RevisionAlias, PendingIds, RecentAttempts, IdsOf, Inv, HasPrefix;
    Offered(s, id);
    forall n: nat
      ensures HasPrefix(GoalId(n), "goal_") && !HasPrefix(GoalId(n), "milestone_") && !HasPrefix(GoalId(n), "attempt_")
      ensures HasPrefix(MilestoneId(n), "milestone_") && !HasPrefix(MilestoneId(n), "goal_")
              && !HasPrefix(MilestoneId(n), "attempt_")
      ensures HasPrefix(AttemptId(n), "attempt_") && !HasPrefix(AttemptId(n), "goal_")
              && !HasPrefix(AttemptId(n), "milestone_")
    {
      KindsDiffer(n);
    }
    assert OrchestratorAliases(s)[1..] == s.goalIds + PendingIds(s.milestones) + IdsOf(RecentAttempts(s.attempts));
  }

  lemma {:induction false} AcceptedRevision(s: State, d: Decision)
    ensures OrchestratorAliases(s) != [] && IsRevisionAlias(OrchestratorAliases(s)[0])
    ensures ParseNat(OrchestratorAliases(s)[0][9..]) == s.revision
  {
    RevisionAliasReads(s.revision);
  }

  /** While a Task runs, its validator accepts exactly the short results that the Ledger records. */
  lemma {:induction false} AcceptedResultIsRecorded(s: State, r: TaskResult)
    requires Reached(s) && s.active.Some?
    ensures |s.tasks| > 0
    ensures var task := s.tasks[|s.tasks| - 1];
            ExecutorAccepts(r, ExecutorAliases(task))
            <==> AppendAttempt(s, r).Ok? && ResultChars(r) <= MAX_TASK_RESULT_TEXT_CHARS
  {
    hide AttemptId, MilestoneId, TaskId, ReportsExactly, ResultChars, AllMet, Inv, Recorded, FindTask;
    InvParts(s);
    RecordedShape(s, Failed, Failure("", ""));
    var task := s.tasks[|s.tasks| - 1];
    assert ExecutorAliases(task)[1..] == CriterionIds(task.criteria);
  }

  /** Between Tasks, the validator accepts exactly the completions that the Ledger carries out. */
  lemma {:induction false} AcceptedCompletionIsCarriedOut(s: State, c: CompleteDecision)
    requires Reached(s) && s.active.None? && c.expected >= 1
    ensures OrchestratorAccepts(CompleteRun(c), OrchestratorAliases(s)) <==> Complete(s, c).Ok?
  {
    hide ReportsExactly, Inv, PendingIds, RecentAttempts, IdsOf, HasPrefix, IsRevisionAlias, ParseNat, RevisionAlias,
         GoalId;
    AcceptedRevision(s, CompleteRun(c));
    var offered := Elements(OrchestratorAliases(s)[1..]);
    forall id
      ensures id in OfferedGoals(offered) <==> id in Elements(s.goalIds)
    {
      OfferedByKind(s, id);
    }
    assert OfferedGoals(offered) == Elements(s.goalIds);
  }

  /** The syntax the decision models enforce on the references of a dispatch. */
  predicate WellNamed(p: TaskProposal) {
    HasPrefix(p.milestoneId, "milestone_") && forall id | id in p.related :: HasPrefix(id, "attempt_")
  }

  /** An accepted dispatch is refused by the Ledger only as an unchanged retry of failed work. */
  lemma {:induction false} AcceptedDispatchRefusal(s: State, p: TaskProposal, expected: nat)
    requires Reached(s) && s.active.None? && WellNamed(p)
    requires OrchestratorAccepts(DispatchWork(p, expected), OrchestratorAliases(s))
    ensures if RepeatsFailure(s, p) then Dispatch(s, p, expected) == Err(UnchangedFailedRetry)
            else Dispatch(s, p, expected).Ok?
  {
    hide Inv, PendingIds, RecentAttempts, IdsOf, HasPrefix, IsRevisionAlias, ParseNat, RevisionAlias, GoalId,
         MilestoneId, AttemptId, TaskId, IsUnchangedRetry, TaskChars, FindMilestone, AttemptIds, OrchestratorAliases,
         RepeatsFailure;
    InvParts(s);
    RefusedRetryIs(s, p);
    AcceptedRevision(s, DispatchWork(p, expected));
    OfferedByKind(s, p.milestoneId);
    PendingIsFound(s, p.milestoneId);
    forall id | id in Elements(p.related)
      ensures id in AttemptIds(s)
    {
      OfferedByKind(s, id);
      RecentIsKnown(s, id);
    }
  }

  lemma {:induction false} PendingIsFound(s: State, id: string)
    requires Reached(s) && id in PendingIds(s.milestones)
    ensures FindMilestone(s.milestones, id).Some?
    ensures FindMilestone(s.milestones, id).value.status == Pending
    ensures FindMilestone(s.milestones, id).value.revision == s.revision
  {
    hide Inv, PendingIds, MilestoneId, TaskId, AttemptId, FindMilestone;
    InvParts(s);
    PendingIdsAre(s.milestones, id);
    FindMilestoneIs(s.milestones, id);
    var i :| 0 <= i < |s.milestones| && s.milestones[i].status == Pending && s.milestones[i].id == id;
    assert s.milestones[i] in s.milestones;
    var m := FindMilestone(s.milestones, id).value;
    var j :| 0 <= j < |s.milestones| && s.milestones[j] == m;
    IdsInjective(i + 1, j + 1);
  }

  lemma {:induction false} RecentIsKnown(s: State, id: string)
    ensures id in IdsOf(RecentAttempts(s.attempts)) ==> id in AttemptIds(s)
  {
    var recent := RecentAttempts(s.attempts);
    if id in IdsOf(recent) {
      var i :| 0 <= i < |recent| && recent[i].id == id;
      assert recent[i] in s.attempts;
    }
  }

  /**
   An accepted replan can still be refused: its completed identities may name a Goal criterion or an Attempt, a
   reopened Milestone may not exist, or nothing may change.
   */
  lemma {:induction false} AcceptedReplanRefusal(s: State, d: ReplanDecision)
    requires Reached(s) && s.active.None? && ValidReplan(d)
    requires OrchestratorAccepts(ReplanWork(d), OrchestratorAliases(s))
    ensures Replan(s, d).Ok?
       <==> && (d.milestones != PendingShapes(s.milestones) || d.completed != [])
            && (forall id | id in d.completed :: HasPrefix(id, "milestone_"))
            && SupersedesKnown(d.milestones, KnownMilestoneIds(s))
  {
    hide Inv, PendingIds, RecentAttempts, IdsOf, HasPrefix, IsRevisionAlias, ParseNat, RevisionAlias, GoalId,
         MilestoneId, AttemptId, TaskId, PendingShapes, SupersedesKnown, KnownMilestoneIds, CurrentPendingIds,
         ProposalsChars, OrchestratorAliases, NoRepeats, Replanned;
    AcceptedRevision(s, ReplanWork(d));
    forall id | id in Elements(d.completed)
      ensures id in CurrentPendingIds(s) <==> HasPrefix(id, "milestone_")
    {
      OfferedByKind(s, id);
      CurrentPendingIsPending(s, id);
    }
  }

  lemma {:induction false} CurrentPendingIsPending(s: State, id: string)
    requires Reached(s)
    ensures id in CurrentPendingIds(s) <==> id in PendingIds(s.milestones)
  {
    hide Inv, MilestoneId, TaskId, AttemptId;
    InvParts(s);
    PendingIdsAre(s.milestones, id);
    if id in PendingIds(s.milestones) {
      var i :| 0 <= i < |s.milestones| && s.milestones[i].status == Pending && s.milestones[i].id == id;
      assert s.milestones[i] in s.milestones;
    }
  }
}
