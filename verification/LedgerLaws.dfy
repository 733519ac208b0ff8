/**
 What the Ledger accepts and what it then holds, told by position in its records and without its own bookkeeping
 (restscope/orchestration/ledger.py and contracts.py).
 */
module LedgerLaws {
  import opened Wrappers
  import opened Decimal
  import opened Texts
  import opened LedgerModel
  import opened LedgerRuns
  import opened OrchestrationContracts

  // ---------------------------------------------------------------- what is accepted

  /** No Task is running. */
  ghost predicate AllClosed(s: State) {
    forall i | 0 <= i < |s.tasks| :: s.tasks[i].status != Running
  }

  ghost predicate IsPending(s: State, id: string) {
    exists i | 0 <= i < |s.milestones| :: s.milestones[i].id == id && s.milestones[i].status == Pending
  }

  ghost predicate IsMilestone(s: State, id: string) {
    exists i | 0 <= i < |s.milestones| :: s.milestones[i].id == id
  }

  ghost predicate IsAttempt(s: State, id: string) {
    exists i | 0 <= i < |s.attempts| :: s.attempts[i].id == id
  }

  /** Every identity has one verdict, and there are no others. */
  ghost predicate AssessesOnce(vs: seq<Verdict>, ids: seq<string>) {
    && (forall i | 0 <= i < |vs| :: vs[i].criterionId in ids)
    && (forall id | id in ids :: exists i | 0 <= i < |vs| :: vs[i].criterionId == id)
    && (forall i, j | 0 <= i < j < |vs| :: vs[i].criterionId != vs[j].criterionId)
  }

  lemma {:induction false} ReportsAre(vs: seq<Verdict>, ids: seq<string>)
    ensures ReportsExactly(vs, Elements(ids)) <==> AssessesOnce(vs, ids)
  {
    hide NoRepeats;
    var names := VerdictIds(vs);
    if AssessesOnce(vs, ids) {
      UniqueCount(names);
      forall id
        ensures id in names <==> id in ids
      {
        if id in ids {
          var i :| 0 <= i < |vs| && vs[i].criterionId == id;
          assert names[i] == id;
        }
      }
    } else if ReportsExactly(vs, Elements(ids)) {
      ExactAssesses(vs, ids);
    }
  }

  lemma {:induction false} ExactAssesses(vs: seq<Verdict>, ids: seq<string>)
    requires ReportsExactly(vs, Elements(ids))
    ensures AssessesOnce(vs, ids)
  {
    hide NoRepeats;
    var names := VerdictIds(vs);
    RepeatsCount(names);
    forall i | 0 <= i < |vs|
      ensures vs[i].criterionId in ids
    {
      assert names[i] in Elements(names);
    }
    forall id | id in ids
      ensures exists i | 0 <= i < |vs| :: vs[i].criterionId == id
    {
      assert id in Elements(names);
      var i :| 0 <= i < |names| && names[i] == id;
      assert vs[i].criterionId == id;
    }
    forall i, j | 0 <= i < j < |vs|
      ensures vs[i].criterionId != vs[j].criterionId
    {
      assert names[i] != names[j];
    }
  }

  lemma {:induction false} ClosedIff(s: State)
    requires AttemptsMatchTasks(s)
    ensures AllClosed(s) <==> s.active.None?
    ensures !AllClosed(s) ==> |s.tasks| > 0 && s.tasks[|s.tasks| - 1].status == Running
  {
    hide TaskId;
    assert |s.tasks| > |s.attempts| ==> s.tasks[|s.attempts|].status == Running;
  }

  /** A replan is accepted exactly when it is current, between Tasks, changes something and names known Milestones. */
  lemma {:induction false} ReplanAccepted(s: State, d: ReplanDecision)
    requires Inv(s)
    ensures Replan(s, d).Ok?
       <==> && d.expected == s.revision && AllClosed(s)
            && (d.completed != [] || d.milestones != PendingShapes(s.milestones))
            && Unique(d.completed) && (forall id | id in d.completed :: IsPending(s, id))
            && forall p | p in d.milestones && p.supersedes.Some? :: IsMilestone(s, p.supersedes.value)
  {
    hide Inv, PendingShapes, NoRepeats, Unique, IsPending, IsMilestone, AllClosed, KnownMilestoneIds,
         CurrentPendingIds;
    InvParts(s);
    ClosedIff(s);
    if NoRepeats(d.completed) { RepeatsCount(d.completed); }
    if Unique(d.completed) { UniqueCount(d.completed); }
    forall id
      ensures id in CurrentPendingIds(s) <==> IsPending(s, id)
      ensures id in KnownMilestoneIds(s) <==> IsMilestone(s, id)
    {
      MilestonesByPlace(s, id);
    }
  }

  lemma {:induction false} MilestonesByPlace(s: State, id: string)
    requires PendingAreCurrent(s)
    ensures id in CurrentPendingIds(s) <==> IsPending(s, id)
    ensures id in KnownMilestoneIds(s) <==> IsMilestone(s, id)
  {
    if IsPending(s, id) {
      var i :| 0 <= i < |s.milestones| && s.milestones[i].id == id && s.milestones[i].status == Pending;
      assert s.milestones[i] in s.milestones;
    }
    if IsMilestone(s, id) {
      var i :| 0 <= i < |s.milestones| && s.milestones[i].id == id;
      assert s.milestones[i] in s.milestones;
    }
  }

  /** The refusals name what was wrong. */
  lemma {:induction false} ReplanRefusals(s: State, d: ReplanDecision)
    requires Inv(s) && Replan(s, d).Err?
    ensures match Replan(s, d).error
            case StaleRevision => d.expected != s.revision
            case TaskActive => !AllClosed(s)
            case NoMaterialChange => d.completed == [] && d.milestones == PendingShapes(s.milestones)
            case DuplicateCompleted => !Unique(d.completed)
            case NotCurrentPending => exists id | id in d.completed :: !IsPending(s, id)
            case UnknownSuperseded =>
              exists p | p in d.milestones && p.supersedes.Some? :: !IsMilestone(s, p.supersedes.value)
            case _ => false
  {
    hide Inv, PendingShapes, NoRepeats, Unique, IsPending, IsMilestone, AllClosed, KnownMilestoneIds,
         CurrentPendingIds;
    InvParts(s);
    ClosedIff(s);
    if Unique(d.completed) { UniqueCount(d.completed); }
    forall id
      ensures id in CurrentPendingIds(s) <==> IsPending(s, id)
      ensures id in KnownMilestoneIds(s) <==> IsMilestone(s, id)
    {
      MilestonesByPlace(s, id);
    }
    if !(Elements(d.completed) <= CurrentPendingIds(s)) {
      var id :| id in Elements(d.completed) && id !in CurrentPendingIds(s);
      assert id in d.completed && !IsPending(s, id);
    }
  }

  /** An accepted replan closes what was pending, as achieved exactly where it says so, and adds the new plan. */
  lemma {:induction false} ReplanCarriedOut(s: State, d: ReplanDecision)
    requires Inv(s) && ValidReplan(d) && Replan(s, d).Ok?
    ensures var next, n := Replan(s, d).value, |s.milestones|;
            && Inv(next) && next.status == Underway && next.revision == s.revision + 1
            && next.tasks == s.tasks && next.attempts == s.attempts && next.active == s.active
            && next.goalIds == s.goalIds && |next.milestones| == n + |d.milestones|
            && (forall i | 0 <= i < n :: MilestoneKept(s.milestones[i], next.milestones[i]))
            && (forall i | 0 <= i < n ::
                  next.milestones[i].status == Achieved
                  <==> s.milestones[i].status == Achieved || s.milestones[i].id in d.completed)
            && (forall i | 0 <= i < n :: next.milestones[i].status != Pending)
            && (forall i | 0 <= i < |d.milestones| :: Shape(next.milestones[n + i]) == d.milestones[i])
            && next.revisions == s.revisions + [next.revisions[s.revision]]
            && next.revisions[s.revision].reason == d.reason && next.revisions[s.revision].completed == d.completed
  {
    hide Inv, Retire, MilestoneId, PendingShapes, KnownMilestoneIds, NoRepeats, CreatedIds, SupersededIds;
    ReplanKeeps(s, d);
    InvParts(s);
    ReplannedMilestones(s, d);
    forall i | 0 <= i < |s.milestones|
      ensures var m := Retire(s.milestones[i], Elements(d.completed));
              && MilestoneKept(s.milestones[i], m) && m.status != Pending
              && (m.status == Achieved <==> s.milestones[i].status == Achieved || s.milestones[i].id in d.completed)
    {
      Retires(s, d, i);
    }
  }

  lemma {:induction false} Retires(s: State, d: ReplanDecision, i: nat)
    requires NumberedIds(s) && PendingAreCurrent(s) && i < |s.milestones|
    requires Elements(d.completed) <= CurrentPendingIds(s)
    ensures var m := Retire(s.milestones[i], Elements(d.completed));
            && MilestoneKept(s.milestones[i], m) && m.status != Pending
            && (m.status == Achieved <==> s.milestones[i].status == Achieved || s.milestones[i].id in d.completed)
  {
    hide MilestoneId, TaskId, AttemptId;
    var id := s.milestones[i].id;
    if id in d.completed {
      assert id in Elements(d.completed);
      var m :| m in s.milestones && m.status == Pending && m.id == id;
      var j :| 0 <= j < |s.milestones| && s.milestones[j] == m;
      IdsInjective(i + 1, j + 1);
    }
  }

  /** A dispatch is accepted exactly when it is current, between Tasks, for pending work, and repeats no failure. */
  lemma {:induction false} DispatchAccepted(s: State, p: TaskProposal, expected: nat)
    requires Inv(s)
    ensures Dispatch(s, p, expected).Ok?
       <==> && expected == s.revision && AllClosed(s) && IsPending(s, p.milestoneId)
            && (forall id | id in p.related :: IsAttempt(s, id)) && !RepeatsFailure(s, p)
  {
    hide Inv, IsPending, AllClosed, FindMilestone, IsUnchangedRetry, RepeatsFailure, AttemptIds, IsAttempt, TaskId;
    InvParts(s);
    ClosedIff(s);
    RefusedRetryIs(s, p);
    TargetIs(s, p.milestoneId);
    forall id
      ensures id in AttemptIds(s) <==> IsAttempt(s, id)
    {
      AttemptsByPlace(s, id);
    }
  }

  lemma {:induction false} AttemptsByPlace(s: State, id: string)
    ensures id in AttemptIds(s) <==> IsAttempt(s, id)
  {
    if IsAttempt(s, id) {
      var i :| 0 <= i < |s.attempts| && s.attempts[i].id == id;
      assert s.attempts[i] in s.attempts;
    }
  }

  lemma {:induction false} TargetIs(s: State, id: string)
    requires NumberedIds(s) && PendingAreCurrent(s)
    ensures IsPending(s, id)
       <==> && FindMilestone(s.milestones, id).Some? && FindMilestone(s.milestones, id).value.status == Pending
            && FindMilestone(s.milestones, id).value.revision == s.revision
  {
    hide MilestoneId, TaskId, AttemptId, FindMilestone;
    FindMilestoneIs(s.milestones, id);
    if IsPending(s, id) {
      var i :| 0 <= i < |s.milestones| && s.milestones[i].id == id && s.milestones[i].status == Pending;
      assert s.milestones[i] in s.milestones;
      var m := FindMilestone(s.milestones, id).value;
      var j :| 0 <= j < |s.milestones| && s.milestones[j] == m;
      IdsInjective(i + 1, j + 1);
    }
  }

  /** A result is accepted exactly when it is for the running Task and assesses each of its criteria once. */
  lemma {:induction false} AttemptAccepted(s: State, r: TaskResult)
    requires Inv(s)
    ensures AppendAttempt(s, r).Ok?
       <==> && !AllClosed(s) && |s.tasks| > 0 && r.taskId == s.tasks[|s.tasks| - 1].id
            && AssessesOnce(r.verdicts, CriterionIds(s.tasks[|s.tasks| - 1].criteria))
            && (r.outcome == Completed ==> forall v | v in r.verdicts :: v.status == Met)
  {
    hide Inv, AllClosed, TaskId, FindTask, ReportsExactly, AssessesOnce, Recorded;
    InvParts(s);
    ClosedIff(s);
    if s.active.Some? {
      RecordedShape(s, Failed, Failure("", ""));
      RunningIsLast(s);
      ReportsAre(r.verdicts, CriterionIds(s.tasks[|s.tasks| - 1].criteria));
    }
  }

  lemma {:induction false} RunningIsLast(s: State)
    requires NumberedIds(s) && AttemptsMatchTasks(s) && s.active.Some?
    ensures |s.tasks| > 0 && s.active.value == s.tasks[|s.tasks| - 1].id
  {
    hide TaskId, AttemptId, MilestoneId;
  }

  /** A failure is accepted exactly when it is for the running Task and its code and message are bounded. */
  lemma {:induction false} FailureAccepted(s: State, taskId: string, code: string, message: string)
    requires Inv(s)
    ensures AppendFailure(s, taskId, code, message).Ok?
       <==> && !AllClosed(s) && |s.tasks| > 0 && taskId == s.tasks[|s.tasks| - 1].id
            && |code| <= 120 && |message| <= 2000
            && (exists i | 0 <= i < |code| :: !IsSpace(code[i]))
            && (exists i | 0 <= i < |message| :: !IsSpace(message[i]))
  {
    hide Inv, AllClosed, TaskId, FindTask, Recorded, IsSpace;
    InvParts(s);
    ClosedIff(s);
    if s.active.Some? {
      RecordedShape(s, Failed, Failure("", ""));
      RunningIsLast(s);
    }
    assert Blank(code) <==> forall i | 0 <= i < |code| :: IsSpace(code[i]);
    assert Blank(message) <==> forall i | 0 <= i < |message| :: IsSpace(message[i]);
  }

  /** A completion is accepted exactly when there is a current plan, no running Task and one verdict per criterion. */
  lemma {:induction false} CompleteAccepted(s: State, c: CompleteDecision)
    requires Inv(s)
    ensures Complete(s, c).Ok? <==> c.expected == s.revision >= 1 && AllClosed(s) && AssessesOnce(c.verdicts, s.goalIds)
  {
    hide Inv, AllClosed, ReportsExactly, AssessesOnce;
    InvParts(s);
    ClosedIff(s);
    ReportsAre(c.verdicts, s.goalIds);
  }

  // ---------------------------------------------------------------- what is offered

  /**
   An Orchestrator decision may name the current revision, the Goal criteria, the pending Milestones and the newest
   twenty Attempts.
   */
  lemma {:induction false} OfferedAre(s: State, id: string)
    requires Inv(s)
    ensures OrchestratorAliases(s)[0] == "revision_" + Dec(s.revision)
    ensures id in OrchestratorAliases(s)[1..]
       <==> || id in s.goalIds || IsPending(s, id)
            || exists k | 0 <= k < |s.attempts| <= k + 20 :: s.attempts[k].id == id
  {
    hide Inv, PendingIds, RecentAttempts, AttemptId, MilestoneId, TaskId;
    PendingIdsAre(s.milestones, id);
    NewestAre(s, id);
    assert OrchestratorAliases(s)[1..] == s.goalIds + PendingIds(s.milestones) + IdsOf(RecentAttempts(s.attempts));
  }

  /** A revision is declared by its number, in digits. */
  lemma {:induction false} RevisionAliasIs(s: string)
    ensures IsRevisionAlias(s) <==>
              exists digits: string | digits != "" && AllDigits(digits) :: s == "revision_" + digits
    ensures HasPrefix(s, "revision_") <==> exists rest: string :: s == "revision_" + rest
  {
    if HasPrefix(s, "revision_") {
      assert s == "revision_" + s[9..];
    }
    if digits: string :| digits != "" && AllDigits(digits) && s == "revision_" + digits {
      assert s[9..] == digits;
    }
  }

  lemma {:induction false} NewestAre(s: State, id: string)
    ensures id in IdsOf(RecentAttempts(s.attempts))
       <==> exists k | 0 <= k < |s.attempts| <= k + 20 :: s.attempts[k].id == id
  {
    var recent := RecentAttempts(s.attempts);
    var start := |s.attempts| - |recent|;
    if id in IdsOf(recent) {
      var i :| 0 <= i < |recent| && recent[i].id == id;
      assert s.attempts[start + i].id == id;
    }
    if k :| 0 <= k < |s.attempts| <= k + 20 && s.attempts[k].id == id {
      assert IdsOf(recent)[k - start] == id;
    }
  }

  // ---------------------------------------------------------------- text budgets measure the text written out

  ghost function Joined(texts: seq<string>): string {
    if texts == [] then "" else texts[0] + Joined(texts[1..])
  }

  ghost function OptionTexts(x: Option<string>): seq<string> {
    if x.Some? then [x.value] else []
  }

  ghost function ProposalTexts(m: MilestoneProposal): seq<string> {
    [m.title, m.purpose] + m.criteria + OptionTexts(m.supersedes)
  }

  ghost function CriterionTexts(c: Criterion): seq<string> {
    [c.id, c.description]
  }

  ghost function VerdictTexts(v: Verdict): seq<string> {
    var status := match v.status case Met => "met" case NotMet => "not_met" case Undetermined => "unknown";
    [v.criterionId, status, v.explanation]
  }

  ghost function TaskTexts(p: TaskProposal): seq<string> {
    [p.milestoneId, p.objective, p.purpose] + Flat(p.criteria, CriterionTexts) + p.related + OptionTexts(p.retryReason)
  }

  ghost function ResultTexts(r: TaskResult): seq<string>
    requires ValidResult(r)
  {
    var outcome := if r.outcome == Completed then "completed" else if r.outcome == Partial then "partial"
      else "blocked";
    [r.taskId, outcome] + Flat(r.verdicts, VerdictTexts) + r.notes
  }

  ghost function Flat<T>(xs: seq<T>, texts: T -> seq<string>): seq<string> {
    if xs == [] then [] else texts(xs[0]) + Flat(xs[1..], texts)
  }

  lemma {:induction false} JoinedSplits(xs: seq<string>, ys: seq<string>)
    ensures Joined(xs + ys) == Joined(xs) + Joined(ys)
  {
    if xs == [] {
      assert xs + ys == ys;
    } else {
      assert (xs + ys)[1..] == xs[1..] + ys;
      JoinedSplits(xs[1..], ys);
    }
  }

  lemma {:induction false} FlatSnoc<T>(xs: seq<T>, texts: T -> seq<string>)
    requires xs != []
    ensures Flat(xs, texts) == Flat(xs[..|xs| - 1], texts) + texts(xs[|xs| - 1])
  {
    if |xs| > 1 {
      FlatSnoc(xs[1..], texts);
      assert xs[1..][..|xs| - 2] == xs[..|xs| - 1][1..];
    }
  }

  lemma {:induction false} StringsJoined(xs: seq<string>)
    ensures StringsChars(xs) == |Joined(xs)|
  {
    if xs != [] {
      var before, last := xs[..|xs| - 1], xs[|xs| - 1];
      StringsJoined(before);
      assert xs == before + [last];
      JoinedSplits(before, [last]);
      assert Joined([last]) == last + Joined([]);
    }
  }

  lemma {:induction false} Two(a: string, b: string)
    ensures |Joined([a, b])| == |a| + |b|
  {
    assert [a, b][1..] == [b] && [b][1..] == [];
    assert Joined([b]) == b + Joined([]);
  }

  lemma {:induction false} OptionJoined(x: Option<string>)
    ensures OptionChars(x) == |Joined(OptionTexts(x))|
  {
    if x.Some? {
      assert OptionTexts(x)[1..] == [];
    }
  }

  /** The text of a replan is what its Milestones say, written one after the other. */
  lemma {:induction false} ReplanText(ms: seq<MilestoneProposal>)
    ensures ProposalsChars(ms) == |Joined(Flat(ms, ProposalTexts))|
  {
    hide Joined, Flat, OptionTexts, OptionChars;
    if ms == [] {
      NoText();
    } else {
      var m := ms[|ms| - 1];
      ReplanText(ms[..|ms| - 1]);
      FlatSnoc(ms, ProposalTexts);
      JoinedSplits(Flat(ms[..|ms| - 1], ProposalTexts), ProposalTexts(m));
      JoinedSplits([m.title, m.purpose] + m.criteria, OptionTexts(m.supersedes));
      JoinedSplits([m.title, m.purpose], m.criteria);
      Two(m.title, m.purpose);
      StringsJoined(m.criteria);
      OptionJoined(m.supersedes);
    }
  }

  lemma {:induction false} NoText()
    ensures Joined([]) == "" && Flat<MilestoneProposal>([], ProposalTexts) == []
    ensures Flat<Criterion>([], CriterionTexts) == [] && Flat<Verdict>([], VerdictTexts) == []
  {
  }

  lemma {:induction false} CriteriaText(cs: seq<Criterion>)
    ensures CriteriaChars(cs) == |Joined(Flat(cs, CriterionTexts))|
  {
    hide Joined, Flat;
    if cs == [] {
      NoText();
    } else {
      var c := cs[|cs| - 1];
      CriteriaText(cs[..|cs| - 1]);
      FlatSnoc(cs, CriterionTexts);
      JoinedSplits(Flat(cs[..|cs| - 1], CriterionTexts), CriterionTexts(c));
      Two(c.id, c.description);
    }
  }

  lemma {:induction false} VerdictsText(vs: seq<Verdict>)
    ensures VerdictsChars(vs) == |Joined(Flat(vs, VerdictTexts))|
  {
    hide Joined, Flat;
    if vs == [] {
      NoText();
    } else {
      var v := vs[|vs| - 1];
      VerdictsText(vs[..|vs| - 1]);
      FlatSnoc(vs, VerdictTexts);
      JoinedSplits(Flat(vs[..|vs| - 1], VerdictTexts), VerdictTexts(v));
      Three(v.criterionId, VerdictName(v.status), v.explanation);
    }
  }

  lemma {:induction false} Three(a: string, b: string, c: string)
    ensures |Joined([a, b, c])| == |a| + |b| + |c|
  {
    assert [a, b, c] == [a] + [b, c] && [a][1..] == [];
    JoinedSplits([a], [b, c]);
    Two(b, c);
  }

  /** The text of a dispatch is every text its proposal holds, written one after the other. */
  lemma {:induction false} DispatchText(p: TaskProposal)
    ensures TaskChars(p) == |Joined(TaskTexts(p))|
  {
    hide Joined, Flat, OptionTexts, OptionChars, StringsChars, CriteriaChars;
    var head, middle := [p.milestoneId, p.objective, p.purpose], Flat(p.criteria, CriterionTexts);
    JoinedSplits(head + middle + p.related, OptionTexts(p.retryReason));
    JoinedSplits(head + middle, p.related);
    JoinedSplits(head, middle);
    Three(p.milestoneId, p.objective, p.purpose);
    CriteriaText(p.criteria);
    StringsJoined(p.related);
    OptionJoined(p.retryReason);
  }

  /** The text of a result is every text it holds, its outcome and verdict names included. */
  lemma {:induction false} ResultText(r: TaskResult)
    requires ValidResult(r)
    ensures ResultChars(r) == |Joined(ResultTexts(r))|
  {
    hide Joined, Flat, StringsChars, VerdictsChars;
    var head, middle := [r.taskId, OutcomeName(r.outcome)], Flat(r.verdicts, VerdictTexts);
    JoinedSplits(head + middle, r.notes);
    JoinedSplits(head, middle);
    Two(r.taskId, OutcomeName(r.outcome));
    VerdictsText(r.verdicts);
    StringsJoined(r.notes);
  }
}
