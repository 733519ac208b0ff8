/**
 Records, decisions and transitions of the long-task Ledger
 (restscope/orchestration/models.py and ledger.py).
 */
module LedgerModel {
  import opened Wrappers
  import opened Decimal
  import opened Texts

  datatype MilestoneStatus = Pending | Achieved | Superseded

  datatype Milestone = Milestone(id: string, revision: nat, title: string, purpose: string, criteria: seq<string>,
                                 status: MilestoneStatus, supersedes: Option<string>)

  datatype MilestoneProposal = MilestoneProposal(title: string, purpose: string, criteria: seq<string>,
                                                 supersedes: Option<string>)

  datatype Criterion = Criterion(id: string, description: string)

  datatype TaskStatus = Running | Completed | Partial | Blocked | Failed

  datatype Task = Task(id: string, milestoneId: string, revision: nat, objective: string, purpose: string,
                       criteria: seq<Criterion>, related: seq<string>, retryReason: Option<string>, status: TaskStatus)

  datatype TaskProposal = TaskProposal(milestoneId: string, objective: string, purpose: string,
                                       criteria: seq<Criterion>, related: seq<string>, retryReason: Option<string>)

  datatype VerdictStatus = Met | NotMet | Undetermined

  datatype Verdict = Verdict(criterionId: string, status: VerdictStatus, explanation: string)

  /** `outcome` is one of Completed, Partial and Blocked. */
  datatype TaskResult = TaskResult(taskId: string, outcome: TaskStatus, verdicts: seq<Verdict>, notes: seq<string>)

  /** A structured result, or the code and message of a lifecycle failure: never both. */
  datatype Payload = Structured(result: TaskResult) | Failure(code: string, message: string)

  datatype Attempt = Attempt(id: string, taskId: string, revision: nat, outcome: TaskStatus, payload: Payload)

  datatype PlanRevision = PlanRevision(revision: nat, reason: string, completed: seq<string>,
                                       superseded: seq<string>, created: seq<string>)

  datatype ReplanDecision = ReplanDecision(expected: nat, reason: string, completed: seq<string>,
                                           milestones: seq<MilestoneProposal>)

  datatype CompleteDecision = CompleteDecision(expected: nat, verdicts: seq<Verdict>, summary: string)

  datatype RunStatus = Planning | Underway | Finished

  datatype State = State(goalIds: seq<string>, revision: nat, status: RunStatus, revisions: seq<PlanRevision>,
                         milestones: seq<Milestone>, tasks: seq<Task>, attempts: seq<Attempt>, active: Option<string>)

  datatype LedgerError =
    | StaleRevision | TaskActive | NoMaterialChange | DuplicateCompleted | NotCurrentPending | UnknownSuperseded
    | UnknownMilestone | MilestoneNotPending | UnknownAttempt | UnchangedFailedRetry
    | NotActiveTask | CriteriaMismatch | CompletedNeedsMet | BadFailureCode | BadFailureMessage
    | NoPlan | GoalCriteriaMismatch

  // ---------------------------------------------------------------- bounds carried by the records

  predicate Unique<T(==)>(xs: seq<T>) {
    forall i, j | 0 <= i < j < |xs| :: xs[i] != xs[j]
  }

  function Elements<T>(xs: seq<T>): set<T> {
    set x | x in xs
  }

  function CriterionIds(cs: seq<Criterion>): seq<string> {
    seq(|cs|, i requires 0 <= i < |cs| => cs[i].id)
  }

  function VerdictIds(vs: seq<Verdict>): seq<string> {
    seq(|vs|, i requires 0 <= i < |vs| => vs[i].criterionId)
  }

  predicate NoRepeats(xs: seq<string>) {
    |Elements(xs)| == |xs|
  }

  lemma {:induction false} UniqueCount(xs: seq<string>)
    requires Unique(xs)
    ensures NoRepeats(xs)
  {
    if xs != [] {
      var before, last := xs[..|xs| - 1], xs[|xs| - 1];
      UniqueCount(before);
      assert Elements(xs) == Elements(before) + {last};
      assert last !in Elements(before);
    }
  }

  lemma {:induction false} RepeatsCount(xs: seq<string>)
    requires NoRepeats(xs)
    ensures Unique(xs)
  {
    hide Elements;
    if xs != [] {
      var before, last := xs[..|xs| - 1], xs[|xs| - 1];
      ElementsSnoc(xs);
      ElementsFew(before);
      RepeatsCount(before);
      forall i | 0 <= i < |before|
        ensures xs[i] != last
      {
        InElements(before, i);
      }
    }
  }

  lemma {:induction false} ElementsSnoc(xs: seq<string>)
    requires xs != []
    ensures Elements(xs) == Elements(xs[..|xs| - 1]) + {xs[|xs| - 1]}
  {
  }

  lemma {:induction false} InElements(xs: seq<string>, i: nat)
    requires i < |xs|
    ensures xs[i] in Elements(xs)
  {
  }

  lemma {:induction false} ElementsFew(xs: seq<string>)
    ensures |Elements(xs)| <= |xs|
  {
    hide Elements;
    if xs != [] {
      ElementsFew(xs[..|xs| - 1]);
      ElementsSnoc(xs);
    } else {
      assert Elements(xs) == {} by { NoElements(); }
    }
  }

  lemma {:induction false} NoElements()
    ensures Elements<string>([]) == {}
  {
  }

  const MAX_MILESTONES := 20
  const MAX_RELATED := 20

  ghost predicate ValidReplan(d: ReplanDecision) {
    1 <= |d.milestones| <= MAX_MILESTONES && |d.completed| <= 20 && NoRepeats(d.completed)
  }

  ghost predicate ValidProposal(p: TaskProposal) {
    1 <= |p.criteria| <= 30 && NoRepeats(CriterionIds(p.criteria)) && |p.related| <= MAX_RELATED && NoRepeats(p.related)
  }

  ghost predicate ValidResult(r: TaskResult) {
    r.outcome in {Completed, Partial, Blocked} && 1 <= |r.verdicts| <= 30
  }

  // ---------------------------------------------------------------- identities

  function MilestoneId(n: nat): string {
    "milestone_" + Dec(n)
  }

  function TaskId(n: nat): string {
    "task_" + Dec(n)
  }

  function AttemptId(n: nat): string {
    "attempt_" + Dec(n)
  }

  lemma {:induction false} IdsInjective(m: nat, n: nat)
    ensures MilestoneId(m) == MilestoneId(n) ==> m == n
    ensures TaskId(m) == TaskId(n) ==> m == n
    ensures AttemptId(m) == AttemptId(n) ==> m == n
  {
    assert MilestoneId(m)[10..] == Dec(m) && MilestoneId(n)[10..] == Dec(n);
    assert TaskId(m)[5..] == Dec(m) && TaskId(n)[5..] == Dec(n);
    assert AttemptId(m)[8..] == Dec(m) && AttemptId(n)[8..] == Dec(n);
    if Dec(m) == Dec(n) {
      DecInjective(m, n);
    }
  }

  // ---------------------------------------------------------------- replan

  function Shape(m: Milestone): MilestoneProposal {
    MilestoneProposal(m.title, m.purpose, m.criteria, m.supersedes)
  }

  /** What is still planned, in order. */
  function PendingShapes(ms: seq<Milestone>): seq<MilestoneProposal> {
    if ms == [] then []
    else PendingShapes(ms[..|ms| - 1])
         + (if ms[|ms| - 1].status == Pending then [Shape(ms[|ms| - 1])] else [])
  }

  function CurrentPendingIds(s: State): set<string> {
    set m | m in s.milestones && m.status == Pending && m.revision == s.revision :: m.id
  }

  function KnownMilestoneIds(s: State): set<string> {
    set m | m in s.milestones :: m.id
  }

  function Retire(m: Milestone, completed: set<string>): Milestone {
    if m.status != Pending then m
    else if m.id in completed then m.(status := Achieved)
    else m.(status := Superseded)
  }

  function RetireAll(ms: seq<Milestone>, completed: set<string>): seq<Milestone> {
    seq(|ms|, i requires 0 <= i < |ms| => Retire(ms[i], completed))
  }

  function SupersededIds(ms: seq<Milestone>, completed: set<string>): seq<string> {
    if ms == [] then []
    else
      var last := ms[|ms| - 1];
      SupersededIds(ms[..|ms| - 1], completed)
      + (if last.status == Pending && last.id !in completed then [last.id] else [])
  }

  function NewMilestones(start: nat, revision: nat, proposals: seq<MilestoneProposal>): seq<Milestone> {
    seq(|proposals|, i requires 0 <= i < |proposals| =>
      Milestone(MilestoneId(start + i + 1), revision, proposals[i].title, proposals[i].purpose,
                proposals[i].criteria, Pending, proposals[i].supersedes))
  }

  function CreatedIds(start: nat, count: nat): seq<string> {
    seq(count, i requires 0 <= i < count => MilestoneId(start + i + 1))
  }

  predicate SupersedesKnown(proposals: seq<MilestoneProposal>, known: set<string>) {
    forall p | p in proposals && p.supersedes.Some? :: p.supersedes.value in known
  }

  function Replanned(s: State, d: ReplanDecision): State {
    var completed := Elements(d.completed);
    var next := s.revision + 1;
    s.(milestones := RetireAll(s.milestones, completed) + NewMilestones(|s.milestones|, next, d.milestones),
       revisions := s.revisions + [PlanRevision(next, d.reason, d.completed, SupersededIds(s.milestones, completed),
                                                CreatedIds(|s.milestones|, |d.milestones|))],
       revision := next,
       status := Underway)
  }

  function Replan(s: State, d: ReplanDecision): Result<State, LedgerError> {
    if d.expected != s.revision then Err(StaleRevision)
    else if s.active.Some? then Err(TaskActive)
    else if d.milestones == PendingShapes(s.milestones) && d.completed == [] then Err(NoMaterialChange)
    else if !NoRepeats(d.completed) then Err(DuplicateCompleted)
    else if !(Elements(d.completed) <= CurrentPendingIds(s)) then Err(NotCurrentPending)
    else if !SupersedesKnown(d.milestones, KnownMilestoneIds(s)) then Err(UnknownSuperseded)
    else Ok(Replanned(s, d))
  }

  // ---------------------------------------------------------------- dispatch

  function FindMilestone(ms: seq<Milestone>, id: string): Option<Milestone> {
    if ms == [] then None else if ms[0].id == id then Some(ms[0]) else FindMilestone(ms[1..], id)
  }

  function AttemptIds(s: State): set<string> {
    set a | a in s.attempts :: a.id
  }

  predicate SameWork(t: Task, p: TaskProposal) {
    t.objective == p.objective && t.purpose == p.purpose && t.criteria == p.criteria
  }

  predicate CitesFailureOf(s: State, t: Task, p: TaskProposal) {
    exists a | a in s.attempts :: a.taskId == t.id && a.outcome == Failed && a.id in p.related
  }

  /** An exact repeat of failed work needs a reason and must cite every earlier failure. */
  predicate IsUnchangedRetry(s: State, p: TaskProposal) {
    exists t | t in s.tasks :: t.status == Failed && SameWork(t, p) && (p.retryReason.None? || !CitesFailureOf(s, t, p))
  }

  function Dispatched(s: State, p: TaskProposal): Task {
    Task(TaskId(|s.tasks| + 1), p.milestoneId, s.revision, p.objective, p.purpose, p.criteria, p.related,
         p.retryReason, Running)
  }

  function Dispatch(s: State, p: TaskProposal, expected: nat): Result<State, LedgerError> {
    if expected != s.revision then Err(StaleRevision)
    else if s.active.Some? then Err(TaskActive)
    else match FindMilestone(s.milestones, p.milestoneId)
      case None => Err(UnknownMilestone)
      case Some(m) =>
        if m.status != Pending || m.revision != s.revision then Err(MilestoneNotPending)
        else if !(Elements(p.related) <= AttemptIds(s)) then Err(UnknownAttempt)
        else if IsUnchangedRetry(s, p) then Err(UnchangedFailedRetry)
        else Ok(s.(tasks := s.tasks + [Dispatched(s, p)], active := Some(TaskId(|s.tasks| + 1))))
  }

  // ---------------------------------------------------------------- terminal outcomes

  function FindTask(ts: seq<Task>, id: string): Option<Task> {
    if ts == [] then None else if ts[0].id == id then Some(ts[0]) else FindTask(ts[1..], id)
  }

  /** Replace the first task equal to `task`. */
  function ReplaceTask(ts: seq<Task>, task: Task, status: TaskStatus): seq<Task> {
    if ts == [] then []
    else if ts[0] == task then [task.(status := status)] + ts[1..]
    else [ts[0]] + ReplaceTask(ts[1..], task, status)
  }

  function Recorded(s: State, task: Task, outcome: TaskStatus, payload: Payload): State {
    s.(attempts := s.attempts + [Attempt(AttemptId(|s.attempts| + 1), task.id, task.revision, outcome, payload)],
       tasks := ReplaceTask(s.tasks, task, outcome),
       active := None)
  }

  predicate ReportsExactly(verdicts: seq<Verdict>, ids: set<string>) {
    NoRepeats(VerdictIds(verdicts)) && Elements(VerdictIds(verdicts)) == ids
  }

  predicate AllMet(verdicts: seq<Verdict>) {
    forall v | v in verdicts :: v.status == Met
  }

  function AppendAttempt(s: State, r: TaskResult): Result<State, LedgerError> {
    if s.active != Some(r.taskId) then Err(NotActiveTask)
    else match FindTask(s.tasks, r.taskId)
      case None => Err(NotActiveTask)
      case Some(task) =>
        if !ReportsExactly(r.verdicts, Elements(CriterionIds(task.criteria))) then Err(CriteriaMismatch)
        else if r.outcome == Completed && !AllMet(r.verdicts) then Err(CompletedNeedsMet)
        else Ok(Recorded(s, task, r.outcome, Structured(r)))
  }

  function AppendFailure(s: State, taskId: string, code: string, message: string): Result<State, LedgerError> {
    if s.active != Some(taskId) then Err(NotActiveTask)
    else match FindTask(s.tasks, taskId)
      case None => Err(NotActiveTask)
      case Some(task) =>
        if Blank(code) || |code| > 120 then Err(BadFailureCode)
        else if Blank(message) || |message| > 2000 then Err(BadFailureMessage)
        else Ok(Recorded(s, task, Failed, Failure(code, message)))
  }

  function Complete(s: State, d: CompleteDecision): Result<State, LedgerError> {
    if d.expected != s.revision then Err(StaleRevision)
    else if s.revision == 0 then Err(NoPlan)
    else if s.active.Some? then Err(TaskActive)
    else if !ReportsExactly(d.verdicts, Elements(s.goalIds)) then Err(GoalCriteriaMismatch)
    else Ok(s.(status := Finished))
  }

  function Initial(goalIds: seq<string>): State {
    State(goalIds, 0, Planning, [], [], [], [], None)
  }
}
