/** The Plan, Execute, Record and Replan cycle (restscope/orchestration/runtime.py). */
module OrchestrationRuntime {
  import opened Wrappers
  import opened Texts
  import opened Decimal
  import opened LedgerModel
  import opened LedgerRuns
  import opened Ledger
  import opened OrchestrationContracts

  /** How one Task Executor ended: a validated result, a lifecycle failure, or another runtime error. */
  datatype Execution =
    | Returned(result: TaskResult)
    | Ended(code: string, message: string)
    | Raised(text: string, typeName: string)

  /** One accepted Orchestrator decision and, for a dispatch, what its Task Executor did. */
  datatype Turn = Turn(decision: Decision, execution: Execution)

  datatype Reason =
    | AliasesRejected | FirstNotReplan
    | ReplanRefused(error: LedgerError) | DispatchRefused(error: LedgerError) | CompletionRefused(error: LedgerError)
    | TaskAliasesRejected | ResultRefused(error: LedgerError) | FailureRefused(error: LedgerError)

  /** `Pending` work remains when the given turns are used up; the other two are terminal. */
  datatype Outcome =
    | Unfinished(state: State)
    | Concluded(state: State, verdicts: seq<Verdict>)
    | Aborted(state: State, reason: Reason)

  // ---------------------------------------------------------------- messages and aliases

  function TrimLeft(s: string): string {
    if s != "" && IsSpace(s[0]) then TrimLeft(s[1..]) else s
  }

  function TrimRight(s: string): string {
    if s != "" && IsSpace(s[|s| - 1]) then TrimRight(s[..|s| - 1]) else s
  }

  function Prefix(s: string, limit: nat): string {
    if |s| <= limit then s else s[..limit]
  }

  const CRASH_CODE := "task_executor_lifecycle_error"

  function CrashMessage(text: string, typeName: string): string {
    var stripped := TrimRight(TrimLeft(text));
    Prefix(if stripped != "" then stripped else typeName, 2000)
  }

  /** The alias bounds every System Agent task enforces (restscope/agent/contracts.py). */
  predicate AliasesFit(aliases: seq<string>) {
    |aliases| <= 100 && Unique(aliases) && forall a | a in aliases :: !Blank(a) && |a| <= 20
  }

  // ---------------------------------------------------------------- one turn

  datatype TurnEnd = Continue(state: State) | Stop(outcome: Outcome)

  function Execute(s: State, taskId: string, e: Execution): TurnEnd {
    match e
    case Returned(r) => (
      match AppendAttempt(s, r)
      case Ok(next) => Continue(next)
      case Err(error) => Stop(Aborted(s, ResultRefused(error))))
    case Ended(code, message) => (
      match AppendFailure(s, taskId, Prefix(code, 120), Prefix(message, 2000))
      case Ok(next) => Continue(next)
      case Err(error) => Stop(Aborted(s, FailureRefused(error))))
    case Raised(text, typeName) =>
      match AppendFailure(s, taskId, CRASH_CODE, CrashMessage(text, typeName))
      case Ok(next) => Continue(next)
      case Err(error) => Stop(Aborted(s, FailureRefused(error)))
  }

  function DispatchTurn(s: State, p: TaskProposal, expected: nat, e: Execution): TurnEnd {
    match Dispatch(s, p, expected)
    case Err(error) => Stop(Aborted(s, DispatchRefused(error)))
    case Ok(next) =>
      if !AliasesFit(ExecutorAliases(Dispatched(s, p))) then Stop(Aborted(next, TaskAliasesRejected))
      else Execute(next, Dispatched(s, p).id, e)
  }

  function TakeTurn(s: State, first: bool, t: Turn): TurnEnd {
    if !AliasesFit(OrchestratorAliases(s)) then Stop(Aborted(s, AliasesRejected))
    else if first && !t.decision.ReplanWork? then Stop(Aborted(s, FirstNotReplan))
    else match t.decision
      case ReplanWork(d) => (
        match Replan(s, d)
        case Ok(next) => Continue(next)
        case Err(error) => Stop(Aborted(s, ReplanRefused(error))))
      case DispatchWork(p, expected) => DispatchTurn(s, p, expected, t.execution)
      case CompleteRun(c) =>
        match Complete(s, c)
        case Ok(next) => Stop(Concluded(next, c.verdicts))
        case Err(error) => Stop(Aborted(s, CompletionRefused(error)))
  }

  function RunFrom(s: State, first: bool, turns: seq<Turn>): Outcome
    decreases |turns|
  {
    if turns == [] then Unfinished(s)
    else match TakeTurn(s, first, turns[0])
      case Continue(next) => RunFrom(next, false, turns[1..])
      case Stop(outcome) => outcome
  }

  // ---------------------------------------------------------------- the loop over a mutable Ledger

  /** The bounds of the decision and result models. */
  ghost predicate Bounded(t: Turn) {
    && (match t.decision
        case ReplanWork(d) => ValidReplan(d)
        case DispatchWork(p, expected) => ValidProposal(p) && expected >= 1 && WellNamed(p) && CriteriaNamed(p.criteria)
        case CompleteRun(c) => c.expected >= 1)
    && match t.execution
       case Returned(r) => ValidResult(r)
       case Ended(code, message) => !Blank(code) && |code| <= 120
       case Raised(_, typeName) => typeName != "" && !IsSpace(typeName[0])
  }

  predicate CriteriaNamed(cs: seq<Criterion>) {
    forall c | c in cs :: HasPrefix(c.id, "criterion_")
  }

  method RunTask(ledger: TaskLedger, taskId: string, e: Execution) returns (stopped: bool, reason: Reason)
    requires ledger.Valid()
    requires e.Returned? ==> ValidResult(e.result)
    modifies ledger
    ensures ledger.Valid()
    ensures Execute(old(ledger.Snapshot()), taskId, e)
            == if stopped then Stop(Aborted(ledger.Snapshot(), reason)) else Continue(ledger.Snapshot())
  {
    hide Inv, LedgerModel.AppendAttempt, LedgerModel.AppendFailure, Prefix, CrashMessage;
    stopped, reason := false, AliasesRejected;
    match e
    case Returned(r) =>
      var attempt := ledger.AppendAttempt(r);
      if attempt.Err? { stopped, reason := true, ResultRefused(attempt.error); }
    case Ended(code, message) =>
      var attempt := ledger.AppendFailure(taskId, Prefix(code, 120), Prefix(message, 2000));
      if attempt.Err? { stopped, reason := true, FailureRefused(attempt.error); }
    case Raised(text, typeName) =>
      var attempt := ledger.AppendFailure(taskId, CRASH_CODE, CrashMessage(text, typeName));
      if attempt.Err? { stopped, reason := true, FailureRefused(attempt.error); }
  }

  method RunLoop(turns: seq<Turn>) returns (outcome: Outcome)
    requires forall t | t in turns :: Bounded(t)
    ensures outcome == RunFrom(Initial(GOAL_IDS), true, turns)
  {
    hide Inv, LedgerModel.Replan, LedgerModel.Complete, AliasesFit, Execute, OrchestratorAliases, ExecutorAliases,
         ValidReplan, ValidProposal, ValidResult, Blank, NoRepeats, WellNamed, CriteriaNamed, GOAL_IDS;
    var ledger := new TaskLedger(GOAL_IDS);
    var first := true;
    var i := 0;
    while i < |turns|
      invariant 0 <= i <= |turns|
      invariant fresh(ledger) && ledger.Valid()
      invariant RunFrom(Initial(GOAL_IDS), true, turns) == RunFrom(ledger.Snapshot(), first, turns[i..])
    {
      var t := turns[i];
      assert t in turns;
      assert turns[i..][0] == t && turns[i..][1..] == turns[i + 1..];
      if !AliasesFit(OrchestratorAliases(ledger.Snapshot())) {
        return Aborted(ledger.Snapshot(), AliasesRejected);
      }
      if first && !t.decision.ReplanWork? {
        return Aborted(ledger.Snapshot(), FirstNotReplan);
      }
      first := false;
      match t.decision {
        case ReplanWork(d) =>
          var error := ledger.ApplyReplan(d);
          if error.Some? { return Aborted(ledger.Snapshot(), ReplanRefused(error.value)); }
        case DispatchWork(p, expected) =>
          ghost var before := ledger.Snapshot();
          var task := ledger.Dispatch(p, expected);
          if task.Err? { return Aborted(ledger.Snapshot(), DispatchRefused(task.error)); }
          assert task.value == Dispatched(before, p);
          if !AliasesFit(ExecutorAliases(task.value)) { return Aborted(ledger.Snapshot(), TaskAliasesRejected); }
          var stopped, reason := RunTask(ledger, task.value.id, t.execution);
          if stopped { return Aborted(ledger.Snapshot(), reason); }
        case CompleteRun(c) =>
          var error := ledger.Complete(c);
          if error.Some? { return Aborted(ledger.Snapshot(), CompletionRefused(error.value)); }
          return Concluded(ledger.Snapshot(), c.verdicts);
      }
      i := i + 1;
    }
    assert turns[i..] == [];
    return Unfinished(ledger.Snapshot());
  }

  // ---------------------------------------------------------------- what the loop guarantees

  /** Every decision and result was accepted by its validator for the view it was given. */
  ghost predicate Accepted(s: State, first: bool, turns: seq<Turn>)
    decreases |turns|
  {
    turns != [] ==>
      && Bounded(turns[0]) && OrchestratorAccepts(turns[0].decision, OrchestratorAliases(s))
      && AcceptedExecution(s, turns[0])
      && match TakeTurn(s, first, turns[0])
         case Continue(next) => Accepted(next, false, turns[1..])
         case Stop(_) => true
  }

  ghost predicate AcceptedExecution(s: State, t: Turn) {
    t.decision.DispatchWork? && t.execution.Returned? ==>
      ExecutorAccepts(t.execution.result, ExecutorAliases(Dispatched(s, t.decision.proposal)))
  }

  /** Between turns: a reachable Ledger without a running Task. */
  ghost predicate Idle(s: State) {
    Reached(s) && s.active.None?
  }

  /** `part` is `whole` cut to `limit` characters. */
  ghost predicate IsCut(part: string, whole: string, limit: nat) {
    part <= whole && |part| == if |whole| <= limit then |whole| else limit
  }

  /** `core` is `text` without the white space around it. */
  ghost predicate IsStripped(core: string, text: string) {
    && (exists i, j | 0 <= i <= j <= |text| :: core == text[i..j] && Blank(text[..i]) && Blank(text[j..]))
    && (core != "" ==> !IsSpace(core[0]) && !IsSpace(core[|core| - 1]))
  }

  /** What an Attempt says of the Task Executor that made it. */
  ghost predicate Records(a: Attempt, e: Execution) {
    match e
    case Returned(r) => a.outcome == r.outcome && a.payload == Structured(r)
    case Ended(code, message) =>
      && a.outcome == Failed && a.payload.Failure? && IsCut(a.payload.code, code, 120)
      && IsCut(a.payload.message, message, 2000) && !Blank(a.payload.message)
    case Raised(text, typeName) =>
      && a.outcome == Failed && a.payload.Failure? && a.payload.code == "task_executor_lifecycle_error"
      && exists core :: IsStripped(core, text)
                        && IsCut(a.payload.message, if core != "" then core else typeName, 2000)
  }

  ghost predicate AsksFor(t: Task, p: TaskProposal) {
    && t.milestoneId == p.milestoneId && t.objective == p.objective && t.purpose == p.purpose
    && t.criteria == p.criteria && t.related == p.related && t.retryReason == p.retryReason
  }

  /** A Task and its Attempt are what one dispatching turn asked for and got. */
  ghost predicate Carried(task: Task, attempt: Attempt, t: Turn) {
    && t.decision.DispatchWork? && AsksFor(task, t.decision.proposal)
    && attempt.taskId == task.id && task.status == attempt.outcome && Records(attempt, t.execution)
  }

  ghost function Dispatches(turns: seq<Turn>): seq<Turn> {
    if turns == [] then []
    else (if turns[0].decision.DispatchWork? then [turns[0]] else []) + Dispatches(turns[1..])
  }

  ghost function Replans(turns: seq<Turn>): seq<ReplanDecision> {
    if turns == [] then []
    else (if turns[0].decision.ReplanWork? then [turns[0].decision.replan] else []) + Replans(turns[1..])
  }

  /** From one idle Ledger to another: every dispatching turn left its Task and Attempt, every replan its revision. */
  ghost predicate Follows(s: State, final: State, turns: seq<Turn>) {
    var n, m, ds, rs := |s.tasks|, |s.revisions|, Dispatches(turns), Replans(turns);
    && |s.attempts| == n && s.tasks <= final.tasks && s.attempts <= final.attempts && s.revisions <= final.revisions
    && |final.tasks| == |final.attempts| == n + |ds| && |final.revisions| == m + |rs|
    && (forall i | 0 <= i < |ds| :: Carried(final.tasks[n + i], final.attempts[n + i], ds[i]))
    && (forall i | 0 <= i < |rs| :: final.revisions[m + i].reason == rs[i].reason
                                    && final.revisions[m + i].completed == rs[i].completed)
  }

  /** A turn that goes on changes the plan or the history, never both. */
  ghost predicate GoesOn(s: State, first: bool, t: Turn, next: State) {
    && Follows(s, next, [t]) && (first ==> t.decision.ReplanWork?)
    && (forall a | a in OrchestratorAliases(s) :: |a| <= 20)
    && match t.decision
       case ReplanWork(d) => next.revision == s.revision + 1 && PendingShapes(next.milestones) == d.milestones
       case DispatchWork(p, _) =>
         next.revision == s.revision && next.milestones == s.milestones && !RepeatsFailure(s, p)
       case CompleteRun(_) => false
  }

  /** Why an accepted turn ended the run early, and what it left. */
  ghost predicate ExplainedAbort(s: State, first: bool, t: Turn, final: State, reason: Reason) {
    match reason
    case AliasesRejected => final == s && exists a | a in OrchestratorAliases(s) :: |a| > 20
    case FirstNotReplan => final == s && first && !t.decision.ReplanWork?
    case ReplanRefused(e) =>
      final == s && t.decision.ReplanWork? && e in {NoMaterialChange, NotCurrentPending, UnknownSuperseded}
    case DispatchRefused(e) =>
      && final == s && e == UnchangedFailedRetry
      && t.decision.DispatchWork? && RepeatsFailure(s, t.decision.proposal)
    case TaskAliasesRejected =>
      && LeftRunning(s, t, final) && exists a | a in ExecutorAliases(final.tasks[|s.tasks|]) :: |a| > 20
    case FailureRefused(e) =>
      && LeftRunning(s, t, final) && e == BadFailureMessage && t.execution.Ended?
      && exists cut :: IsCut(cut, t.execution.message, 2000) && Blank(cut)
    case _ => false
  }

  /** The Task was dispatched and has no Attempt. */
  ghost predicate LeftRunning(s: State, t: Turn, final: State) {
    && t.decision.DispatchWork? && final.active.Some? && final.attempts == s.attempts
    && |final.tasks| == |s.tasks| + 1 && s.tasks <= final.tasks
    && AsksFor(final.tasks[|s.tasks|], t.decision.proposal) && final.tasks[|s.tasks|].status == Running
  }

  /** The running Task, which is the last one, is closed by one new Attempt that records `e`. */
  ghost predicate Closes(s: State, e: Execution, next: State) {
    var n := |s.attempts|;
    && |s.tasks| == |next.tasks| == |next.attempts| == n + 1 && s.attempts <= next.attempts
    && next.tasks[..n] == s.tasks[..n] && next.tasks[n] == s.tasks[n].(status := next.attempts[n].outcome)
    && next.attempts[n].taskId == s.tasks[n].id && Records(next.attempts[n], e)
    && next.revision == s.revision && next.milestones == s.milestones && next.revisions == s.revisions
  }

  /** An Orchestrator task is refused only for an identity of more than 20 characters. */
  lemma {:induction false} OrchestratorAliasesFit(s: State)
    requires Reached(s)
    ensures AliasesFit(OrchestratorAliases(s)) <==> forall a | a in OrchestratorAliases(s) :: |a| <= 20
  {
    hide OrchestratorAliases, Unique, Reached, Blank;
    AliasesUniqueAndFew(s);
    forall a | a in OrchestratorAliases(s)
      ensures !Blank(a)
    {
      AliasNotBlank(s, a);
    }
  }

  lemma {:induction false} AliasNotBlank(s: State, a: string)
    requires Reached(s) && a in OrchestratorAliases(s)
    ensures !Blank(a)
  {
    hide Reached, GoalId, PendingIds, IdsOf, RecentAttempts;
    FirstLetters(s, a);
    KindsDiffer(s.revision);
    assert a == RevisionAlias(s.revision) || a in s.goalIds || a in PendingIds(s.milestones)
      || a in IdsOf(RecentAttempts(s.attempts));
    assert |a| > 0 && !IsSpace(a[0]);
    assert a[0] in a;
  }

  /** A Task Executor task is refused only for an identity of more than 20 characters. */
  lemma {:induction false} ExecutorAliasesFit(t: Task, n: nat)
    requires t.id == TaskId(n) && |t.criteria| <= 30 && NoRepeats(CriterionIds(t.criteria)) && CriteriaNamed(t.criteria)
    ensures AliasesFit(ExecutorAliases(t)) <==> forall a | a in ExecutorAliases(t) :: |a| <= 20
  {
    hide NoRepeats, Unique, Blank;
    var ids := CriterionIds(t.criteria);
    RepeatsCount(ids);
    forall a | a in ids
      ensures |a| > 0 && a[0] == 'c' && !Blank(a)
    {
      var i :| 0 <= i < |ids| && ids[i] == a;
      StartsWithC(t.criteria, i);
    }
    TaskIdStarts(n);
    UniqueAppend([t.id], ids);
  }

  lemma {:induction false} StartsWithC(cs: seq<Criterion>, i: nat)
    requires CriteriaNamed(cs) && i < |cs|
    ensures |cs[i].id| > 0 && cs[i].id[0] == 'c' && !Blank(cs[i].id)
  {
    assert HasPrefix(cs[i].id, "criterion_");
    assert "criterion_"[0] == 'c';
    assert cs[i].id[0] in cs[i].id;
  }

  lemma {:induction false} TaskIdStarts(n: nat)
    ensures |TaskId(n)| > 0 && TaskId(n)[0] == 't' && !Blank(TaskId(n)) && Unique([TaskId(n)])
  {
    assert TaskId(n)[0] == 't';
    assert TaskId(n)[0] in TaskId(n);
  }

  // The messages the loop hands to the Ledger.

  lemma {:induction false} TrimLeftIs(s: string)
    ensures Blank(s) <==> TrimLeft(s) == ""
    ensures TrimLeft(s) != "" ==> !IsSpace(TrimLeft(s)[0])
  {
    if s != "" && IsSpace(s[0]) {
      TrimLeftIs(s[1..]);
      assert forall c | c in s :: c == s[0] || c in s[1..];
      assert forall c | c in s[1..] :: c in s;
    } else if s != "" {
      assert s[0] in s;
    }
  }

  lemma {:induction false} TrimRightKeepsHead(s: string)
    requires s != "" && !IsSpace(s[0])
    ensures TrimRight(s) != "" && TrimRight(s)[0] == s[0]
  {
    if IsSpace(s[|s| - 1]) {
      TrimRightKeepsHead(s[..|s| - 1]);
    }
  }

  lemma {:induction false} TrimLeftDrops(s: string) returns (i: nat)
    ensures i <= |s| && TrimLeft(s) == s[i..] && Blank(s[..i])
  {
    if s != "" && IsSpace(s[0]) {
      var k := TrimLeftDrops(s[1..]);
      i := k + 1;
      assert s[..i] == [s[0]] + s[1..][..k];
    } else {
      i := 0;
    }
  }

  lemma {:induction false} TrimRightDrops(s: string) returns (j: nat)
    ensures j <= |s| && TrimRight(s) == s[..j] && Blank(s[j..])
    ensures j > 0 ==> !IsSpace(s[j - 1])
  {
    if s != "" && IsSpace(s[|s| - 1]) {
      var before := s[..|s| - 1];
      j := TrimRightDrops(before);
      assert s[j..] == before[j..] + [s[|s| - 1]];
    } else {
      j := |s|;
    }
  }

  /** Dropping white space from the left and then from the right strips a text. */
  lemma {:induction false} TrimStrips(text: string)
    ensures IsStripped(TrimRight(TrimLeft(text)), text)
  {
    hide IsSpace, TrimLeft, TrimRight;
    TrimLeftIs(text);
    var i := TrimLeftDrops(text);
    var j := TrimRightDrops(text[i..]);
    assert text[i..][..j] == text[i..i + j] && text[i..][j..] == text[i + j..];
  }

  lemma {:induction false} PrefixIsCut(s: string, limit: nat)
    ensures IsCut(Prefix(s, limit), s, limit)
  {
  }

  lemma {:induction false} CrashMessageShape(text: string, typeName: string)
    requires typeName != "" && !IsSpace(typeName[0])
    ensures !Blank(CrashMessage(text, typeName)) && |CrashMessage(text, typeName)| <= 2000
  {
    hide IsSpace, TrimLeft, TrimRight;
    TrimLeftIs(text);
    TrimRightEmpty();
    if TrimLeft(text) != "" {
      TrimRightKeepsHead(TrimLeft(text));
    }
    var message := CrashMessage(text, typeName);
    assert message[0] in message;
  }

  /** Whatever a runtime error says, the Ledger can record it. */
  lemma {:induction false} CrashIsRecorded(s: State, text: string, typeName: string)
    requires Inv(s) && s.active.Some? && typeName != "" && !IsSpace(typeName[0])
    ensures AppendFailure(s, s.active.value, CRASH_CODE, CrashMessage(text, typeName)).Ok?
  {
    hide Recorded, FindTask, CrashMessage, Inv, Blank, CRASH_CODE;
    CrashMessageShape(text, typeName);
    CrashCodeShape();
    InvParts(s);
    RecordedShape(s, Failed, Failure("", ""));
  }

  lemma {:induction false} CrashCodeShape()
    ensures !Blank(CRASH_CODE) && |CRASH_CODE| <= 120
  {
    assert CRASH_CODE[0] in CRASH_CODE;
  }

  lemma {:induction false} TrimRightEmpty()
    ensures TrimRight("") == ""
  {
  }

  /** A lifecycle failure is recorded exactly when its message, cut to 2000 characters, is not all white space. */
  lemma {:induction false} EndedIsRecorded(s: State, code: string, message: string)
    requires Inv(s) && s.active.Some? && !Blank(code) && |code| <= 120
    ensures var result := AppendFailure(s, s.active.value, Prefix(code, 120), Prefix(message, 2000));
            if Blank(Prefix(message, 2000)) then result == Err(BadFailureMessage) else result.Ok?
  {
    hide Recorded, FindTask, Inv, Blank;
    InvParts(s);
    RecordedShape(s, Failed, Failure("", ""));
  }

  lemma {:induction false} DispatchedState(s: State, p: TaskProposal, expected: nat)
    requires Idle(s) && ValidProposal(p) && Dispatch(s, p, expected).Ok?
    ensures var next := Dispatch(s, p, expected).value;
            && Reached(next) && next.active == Some(TaskId(|s.tasks| + 1))
            && next == s.(tasks := s.tasks + [Dispatched(s, p)], active := next.active)
  {
    hide Inv, TaskId, FindMilestone, IsUnchangedRetry, AttemptIds;
    DispatchKeeps(s, p, expected);
  }

  lemma {:induction false} ExecutionEnds(s: State, taskId: string, e: Execution)
    requires Reached(s) && s.active == Some(taskId) && |s.tasks| > 0
    requires match e
             case Returned(r) => ValidResult(r) && ExecutorAccepts(r, ExecutorAliases(s.tasks[|s.tasks| - 1]))
             case Ended(code, message) => !Blank(code) && |code| <= 120
             case Raised(_, typeName) => typeName != "" && !IsSpace(typeName[0])
    ensures match Execute(s, taskId, e)
            case Continue(next) => Idle(next) && Closes(s, e, next)
            case Stop(outcome) =>
              && e.Ended? && Blank(Prefix(e.message, 2000)) && outcome == Aborted(s, FailureRefused(BadFailureMessage))
  {
    hide Inv, Recorded, Blank, Prefix, CrashMessage, ExecutorAccepts, ExecutorAliases, FindTask, TaskId, Records,
         Closes;
    match e
    case Returned(r) =>
      AcceptedResultIsRecorded(s, r);
      ResultRecords(r);
      TaskCloses(s, e, r.outcome, Structured(r));
    case Ended(code, message) =>
      EndedIsRecorded(s, code, message);
      if !Blank(Prefix(message, 2000)) {
        EndRecords(code, message);
        TaskCloses(s, e, Failed, Failure(Prefix(code, 120), Prefix(message, 2000)));
      }
    case Raised(text, typeName) =>
      CrashIsRecorded(s, text, typeName);
      CrashRecords(text, typeName);
      TaskCloses(s, e, Failed, Failure(CRASH_CODE, CrashMessage(text, typeName)));
  }

  lemma {:induction false} ResultRecords(r: TaskResult)
    ensures forall a: Attempt | a.outcome == r.outcome && a.payload == Structured(r) :: Records(a, Returned(r))
  {
  }

  lemma {:induction false} EndRecords(code: string, message: string)
    requires !Blank(Prefix(message, 2000))
    ensures forall a: Attempt |
              a.outcome == Failed && a.payload == Failure(Prefix(code, 120), Prefix(message, 2000)) ::
              Records(a, Ended(code, message))
  {
    hide Blank, Prefix, IsCut;
    PrefixIsCut(code, 120);
    PrefixIsCut(message, 2000);
  }

  lemma {:induction false} CrashRecords(text: string, typeName: string)
    ensures forall a: Attempt | a.outcome == Failed && a.payload == Failure(CRASH_CODE, CrashMessage(text, typeName)) ::
              Records(a, Raised(text, typeName))
  {
    hide TrimLeft, TrimRight, Prefix, IsCut, IsStripped;
    var core := TrimRight(TrimLeft(text));
    TrimStrips(text);
    PrefixIsCut(if core != "" then core else typeName, 2000);
  }

  lemma {:induction false} TaskCloses(s: State, e: Execution, outcome: TaskStatus, payload: Payload)
    requires Reached(s) && s.active.Some? && outcome != Running && (outcome == Failed <==> payload.Failure?)
    requires forall a: Attempt | a.outcome == outcome && a.payload == payload :: Records(a, e)
    ensures FindTask(s.tasks, s.active.value).Some?
    ensures var next := Recorded(s, FindTask(s.tasks, s.active.value).value, outcome, payload);
            Idle(next) && Closes(s, e, next)
  {
    hide Inv, Recorded, FindTask, Records, TaskId, AttemptId;
    InvParts(s);
    RecordedShape(s, outcome, payload);
    CloseKeeps(s, outcome, payload);
  }

  lemma {:induction false} DispatchTurnEnds(s: State, p: TaskProposal, expected: nat, t: Turn)
    requires Idle(s) && t.decision == DispatchWork(p, expected) && Bounded(t) && AcceptedExecution(s, t)
    requires OrchestratorAccepts(t.decision, OrchestratorAliases(s))
    ensures match DispatchTurn(s, p, expected, t.execution)
            case Continue(next) =>
              && Idle(next) && Follows(s, next, [t]) && next.revision == s.revision
              && next.milestones == s.milestones && !RepeatsFailure(s, p)
            case Stop(outcome) =>
              && outcome.Aborted? && outcome.reason != FirstNotReplan
              && ExplainedAbort(s, false, t, outcome.state, outcome.reason) && Reached(outcome.state)
  {
    hide Inv, LedgerModel.Dispatch, OrchestratorAccepts, OrchestratorAliases, AliasesFit, Execute, Reached, Records,
         ExecutorAccepts, NoRepeats, ExecutorAliases, TaskId, Blank, WellNamed, CriteriaNamed, HasPrefix, IsCut,
         RepeatsFailure, IsUnchangedRetry, Follows, Closes;
    AcceptedDispatchRefusal(s, p, expected);
    if Dispatch(s, p, expected).Ok? {
      DispatchedState(s, p, expected);
      var next := Dispatch(s, p, expected).value;
      var task := Dispatched(s, p);
      assert next.tasks[|next.tasks| - 1] == task;
      ExecutorAliasesFit(task, |s.tasks| + 1);
      if AliasesFit(ExecutorAliases(task)) {
        ExecutionEnds(next, task.id, t.execution);
        if Execute(next, task.id, t.execution).Continue? {
          ClosedFollows(s, next, t, Execute(next, task.id, t.execution).state);
        } else {
          PrefixIsCut(t.execution.message, 2000);
        }
      }
    }
  }

  lemma {:induction false} OneTurn(t: Turn)
    ensures Dispatches([t]) == if t.decision.DispatchWork? then [t] else []
    ensures Replans([t]) == if t.decision.ReplanWork? then [t.decision.replan] else []
  {
    assert [t][1..] == [];
    assert Dispatches([t][1..]) == [] && Replans([t][1..]) == [];
  }

  lemma {:induction false} ClosedFollows(s: State, begun: State, t: Turn, next: State)
    requires Idle(s) && t.decision.DispatchWork? && begun.tasks == s.tasks + [Dispatched(s, t.decision.proposal)]
    requires begun.attempts == s.attempts && begun.revisions == s.revisions && Closes(begun, t.execution, next)
    requires begun.revision == s.revision && begun.milestones == s.milestones
    ensures Follows(s, next, [t]) && next.revision == s.revision && next.milestones == s.milestones
  {
    hide Inv, Records, TaskId, Dispatches, Replans;
    IdleCounts(s);
    OneTurn(t);
    assert s.tasks == begun.tasks[..|s.tasks|] == next.tasks[..|s.tasks|];
  }

  lemma {:induction false} IdleCounts(s: State)
    requires Idle(s)
    ensures |s.attempts| == |s.tasks| && |s.revisions| == s.revision
  {
    hide Inv;
    InvParts(s);
  }

  lemma {:induction false} ReplanTurnEnds(s: State, d: ReplanDecision, t: Turn)
    requires Idle(s) && ValidReplan(d) && OrchestratorAccepts(ReplanWork(d), OrchestratorAliases(s))
    requires t.decision == ReplanWork(d)
    ensures match Replan(s, d)
            case Ok(next) =>
              && Idle(next) && Follows(s, next, [t]) && next.revision == s.revision + 1
              && PendingShapes(next.milestones) == d.milestones
            case Err(e) => e in {NoMaterialChange, NotCurrentPending, UnknownSuperseded}
  {
    hide Inv, PendingShapes, Elements, NoRepeats, CurrentPendingIds, SupersedesKnown, RetireAll, NewMilestones,
         ParseNat, IsRevisionAlias, ProposalsChars, OrchestratorAliases, Dispatches, Replans;
    AcceptedRevision(s, ReplanWork(d));
    if Replan(s, d).Ok? {
      ReplanKeeps(s, d);
      PendingAfterReplan(s, d);
      IdleCounts(s);
      OneTurn(t);
    }
  }

  /**
   An accepted turn either leaves an idle Ledger with exactly the Task, the Attempt and the plan it asked for,
   concludes, or aborts for one of the listed reasons.
   */
  lemma {:induction false} AcceptedTurnEnds(s: State, first: bool, t: Turn)
    requires Idle(s) && Bounded(t) && OrchestratorAccepts(t.decision, OrchestratorAliases(s)) && AcceptedExecution(s, t)
    ensures match TakeTurn(s, first, t)
            case Continue(next) => Idle(next) && GoesOn(s, first, t, next)
            case Stop(Concluded(final, verdicts)) =>
              IsConclusion(final, verdicts) && Concludes(s, t, final, verdicts) && !first
            case Stop(Aborted(final, reason)) => Reached(final) && ExplainedAbort(s, first, t, final, reason)
            case Stop(Unfinished(_)) => false
  {
    hide Inv, Replan, LedgerModel.Dispatch, Complete, OrchestratorAccepts, OrchestratorAliases, AliasesFit, Follows,
         DispatchTurn, AcceptedExecution, ValidReplan, ValidProposal, IsConclusion, Reached, RepeatsFailure,
         PendingShapes, LeftRunning, IsCut, Blank;
    OrchestratorAliasesFit(s);
    match t.decision
    case ReplanWork(d) => ReplanTurnEnds(s, d, t);
    case DispatchWork(p, expected) => DispatchTurnEnds(s, p, expected, t);
    case CompleteRun(c) =>
      AcceptedCompletionIsCarriedOut(s, c);
      if Complete(s, c).Ok? {
        ConclusionIs(s, c, t);
      }
  }

  /** A concluded run has a plan, no running Task, and one verdict for every Goal criterion. */
  ghost predicate IsConclusion(s: State, verdicts: seq<Verdict>) {
    && Idle(s) && s.status == Finished && s.revision >= 1 && |s.attempts| == |s.tasks|
    && ReportsExactly(verdicts, Elements(GOAL_IDS))
  }

  /** A completion gives its own verdicts and leaves plan and history alone. */
  ghost predicate Concludes(s: State, t: Turn, final: State, verdicts: seq<Verdict>) {
    && t.decision.CompleteRun? && verdicts == t.decision.complete.verdicts
    && final == s.(status := Finished)
  }

  lemma {:induction false} ConclusionIs(s: State, c: CompleteDecision, t: Turn)
    requires Idle(s) && Complete(s, c).Ok? && t.decision == CompleteRun(c)
    ensures IsConclusion(Complete(s, c).value, c.verdicts) && Concludes(s, t, Complete(s, c).value, c.verdicts)
  {
    hide Inv, ReportsExactly;
    CompleteKeeps(s, c);
    InvParts(s);
  }

  lemma {:induction false} TurnsSplit(t: Turn, later: seq<Turn>)
    ensures Dispatches([t] + later) == Dispatches([t]) + Dispatches(later)
    ensures Replans([t] + later) == Replans([t]) + Replans(later)
  {
    assert ([t] + later)[1..] == later && [t][1..] == [];
  }

  /** One turn and then the others. */
  lemma {:induction false} FollowsOn(s: State, mid: State, final: State, t: Turn, later: seq<Turn>)
    requires Follows(s, mid, [t]) && Follows(mid, final, later)
    ensures Follows(s, final, [t] + later)
  {
    hide Carried, Dispatches, Replans;
    TurnsSplit(t, later);
    var n, k := |s.tasks|, |Dispatches([t])|;
    var m, j := |s.revisions|, |Replans([t])|;
    var ds, rs := Dispatches([t] + later), Replans([t] + later);
    forall i | 0 <= i < |ds|
      ensures Carried(final.tasks[n + i], final.attempts[n + i], ds[i])
    {
      if i >= k {
        assert ds[i] == Dispatches(later)[i - k] && n + i == |mid.tasks| + (i - k);
      }
    }
    forall i | 0 <= i < |rs|
      ensures final.revisions[m + i].reason == rs[i].reason && final.revisions[m + i].completed == rs[i].completed
    {
      if i >= j {
        assert rs[i] == Replans(later)[i - j] && m + i == |mid.revisions| + (i - j);
      }
    }
  }

  lemma {:induction false} NothingFollows(s: State)
    requires Idle(s)
    ensures Follows(s, s, [])
  {
    hide Inv;
    IdleCounts(s);
  }

  /** The first `k` turns led from `s` to `mid`, and turn `k` ended the run in `final`. */
  ghost predicate ConcludedAt(s: State, turns: seq<Turn>, k: nat, final: State, verdicts: seq<Verdict>) {
    && k < |turns|
    && exists mid :: Follows(s, mid, turns[..k]) && Concludes(mid, turns[k], final, verdicts)
  }

  ghost predicate AbortedAt(s: State, first: bool, turns: seq<Turn>, k: nat, final: State, reason: Reason) {
    && k < |turns|
    && exists mid :: Follows(s, mid, turns[..k]) && ExplainedAbort(mid, first && k == 0, turns[k], final, reason)
  }

  /**
   Over a whole run of accepted turns: it concludes properly, is still idle, or was aborted for a listed reason. The
   i-th dispatching turn has become the i-th Task and Attempt. A result is never refused, nor a completion.
   */
  lemma {:induction false} RunEnds(s: State, first: bool, turns: seq<Turn>)
    requires Idle(s) && Accepted(s, first, turns)
    ensures match RunFrom(s, first, turns)
            case Unfinished(final) => Idle(final) && Follows(s, final, turns)
            case Concluded(final, verdicts) =>
              IsConclusion(final, verdicts) && exists k: nat :: ConcludedAt(s, turns, k, final, verdicts)
            case Aborted(final, reason) =>
              Reached(final) && exists k: nat :: AbortedAt(s, first, turns, k, final, reason)
    decreases |turns|
  {
    hide Idle, Reached, TakeTurn, IsConclusion, ExplainedAbort, Bounded, OrchestratorAccepts, AcceptedExecution,
         Follows, ConcludedAt, AbortedAt, Concludes, OrchestratorAliases, RepeatsFailure, PendingShapes;
    if turns == [] {
      NothingFollows(s);
    } else {
      AcceptedTurnEnds(s, first, turns[0]);
      match TakeTurn(s, first, turns[0])
      case Continue(next) =>
        RunEnds(next, false, turns[1..]);
        LaterEnds(s, first, turns, next);
      case Stop(_) => EndsAtOnce(s, first, turns);
    }
  }

  lemma {:induction false} EndsAtOnce(s: State, first: bool, turns: seq<Turn>)
    requires Idle(s) && turns != []
    ensures forall final, verdicts | Concludes(s, turns[0], final, verdicts) ::
              ConcludedAt(s, turns, 0, final, verdicts)
    ensures forall final, reason | ExplainedAbort(s, first, turns[0], final, reason) ::
              AbortedAt(s, first, turns, 0, final, reason)
  {
    hide ExplainedAbort, Follows, Idle, Concludes;
    NothingFollows(s);
    assert turns[..0] == [];
  }

  lemma {:induction false} LaterEnds(s: State, first: bool, turns: seq<Turn>, next: State)
    requires turns != [] && Follows(s, next, [turns[0]])
    ensures forall final | Follows(next, final, turns[1..]) :: Follows(s, final, turns)
    ensures forall k: nat, final, verdicts | ConcludedAt(next, turns[1..], k, final, verdicts) ::
              ConcludedAt(s, turns, k + 1, final, verdicts)
    ensures forall k: nat, final, reason | AbortedAt(next, false, turns[1..], k, final, reason) ::
              AbortedAt(s, first, turns, k + 1, final, reason)
  {
    hide ExplainedAbort, Follows, Concludes;
    var t, later := turns[0], turns[1..];
    assert turns == [t] + later;
    forall k: nat, mid | k <= |later| && Follows(next, mid, later[..k])
      ensures Follows(s, mid, turns[..k + 1])
    {
      FollowsOn(s, next, mid, t, later[..k]);
      assert [t] + later[..k] == turns[..k + 1];
    }
    forall final | Follows(next, final, later)
      ensures Follows(s, final, turns)
    {
      FollowsOn(s, next, final, t, later);
    }
    forall k: nat, final, verdicts | ConcludedAt(next, later, k, final, verdicts)
      ensures ConcludedAt(s, turns, k + 1, final, verdicts)
    {
      var mid :| Follows(next, mid, later[..k]) && Concludes(mid, later[k], final, verdicts);
      assert Follows(s, mid, turns[..k + 1]) && turns[k + 1] == later[k];
    }
    forall k: nat, final, reason | AbortedAt(next, false, later, k, final, reason)
      ensures AbortedAt(s, first, turns, k + 1, final, reason)
    {
      var mid :| Follows(next, mid, later[..k]) && ExplainedAbort(mid, false && k == 0, later[k], final, reason);
      assert Follows(s, mid, turns[..k + 1]) && turns[k + 1] == later[k];
    }
  }

  /** The loop starts with an empty Ledger for the fixed Goal. */
  lemma {:induction false} RuntimeEnds(turns: seq<Turn>)
    requires Accepted(Initial(GOAL_IDS), true, turns)
    ensures var start := Initial(GOAL_IDS);
            match RunFrom(start, true, turns)
            case Unfinished(final) => Idle(final) && Follows(start, final, turns)
            case Concluded(final, verdicts) =>
              IsConclusion(final, verdicts) && exists k: nat :: ConcludedAt(start, turns, k, final, verdicts)
            case Aborted(final, reason) =>
              Reached(final) && exists k: nat :: AbortedAt(start, true, turns, k, final, reason)
  {
    hide Accepted, RunFrom, IsConclusion, ExplainedAbort, Inv, GOAL_IDS, Follows, ConcludedAt, AbortedAt;
    InitialInv(GOAL_IDS);
    RunEnds(Initial(GOAL_IDS), true, turns);
  }

  /** Completion is terminal: later turns are never looked at. */
  lemma {:induction false} CompletionIsTerminal(s: State, first: bool, turns: seq<Turn>, later: seq<Turn>)
    requires !RunFrom(s, first, turns).Unfinished?
    ensures RunFrom(s, first, turns + later) == RunFrom(s, first, turns)
    decreases |turns|
  {
    hide TakeTurn;
    assert (turns + later)[0] == turns[0] && (turns + later)[1..] == turns[1..] + later;
    match TakeTurn(s, first, turns[0])
    case Continue(next) => CompletionIsTerminal(next, false, turns[1..], later);
    case Stop(_) =>
  }
}
