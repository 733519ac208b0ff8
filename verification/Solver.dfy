/**
 Bounded depth-first search for a joint candidate satisfying all constraints
 (restscope/request_generation/constraint_solver.py).
 */
module Solver {
  import opened Wrappers
  import opened Constraints
  import opened RequestTree

  /** One scalar domain, or one domain of complete resource records. */
  datatype Unit = Unit(nodeIds: seq<NodeId>, candidates: seq<Assignments>)

  /** Components of one resource identity and the records observed for it. */
  datatype Group = Group(components: map<string, NodeId>, records: seq<map<string, Value>>)

  datatype Problem = Problem(units: seq<Unit>, nodes: Nodes, baseline: Assignments,
                             constraints: seq<BoolExpr>, groups: seq<Group>, re: Regex, maxStates: nat)

  datatype SolveError = InvalidLimit | EmptyDomain(nodeIds: seq<NodeId>) | Unsatisfiable | Exhausted

  function IdsOf(u: Unit): set<NodeId> {
    set id | id in u.nodeIds
  }

  /** Inputs chosen by the first k units. */
  function UnitIds(units: seq<Unit>, k: nat): set<NodeId>
    requires k <= |units|
  {
    set i, id | 0 <= i < k && id in units[i].nodeIds :: id
  }

  /** Units choose for disjoint inputs, and every candidate of a unit chooses for all of them. */
  ghost predicate WellFormed(pb: Problem, rank: map<NodeId, nat>) {
    && Forest(pb.nodes, rank)
    && UnitIds(pb.units, |pb.units|) <= pb.nodes.Keys
    && (forall i, k | 0 <= i < k < |pb.units| :: IdsOf(pb.units[i]) * IdsOf(pb.units[k]) == {})
    && (forall k, c | 0 <= k < |pb.units| && c in pb.units[k].candidates :: c.Keys == IdsOf(pb.units[k]))
  }

  /** No selectable input lies below an input whose value some constraint reads. */
  ghost predicate Prunable(pb: Problem, rank: map<NodeId, nat>)
    requires WellFormed(pb, rank)
  {
    ReadsOnlyLeaves(ReadRefsOf(pb.constraints), UnitIds(pb.units, |pb.units|), pb.nodes, rank)
  }

  /** Constraint validation lets only scalar inputs be read, and a scalar input has no child nodes. */
  lemma {:induction false} ScalarReadsArePrunable(pb: Problem, rank: map<NodeId, nat>)
    requires WellFormed(pb, rank)
    requires forall r, n | r in ReadRefsOf(pb.constraints) && n in pb.nodes :: ParentOf(n, pb.nodes) != Some(r)
    ensures Prunable(pb, rank)
  {
    forall r, n | r in ReadRefsOf(pb.constraints) && n in UnitIds(pb.units, |pb.units|)
      ensures r !in Ancestors(n, pb.nodes, rank)
    {
      ChildlessIsNoAncestor(r, n, pb.nodes, rank);
    }
  }

  // ---------------------------------------------------------------- observed records

  function AsNumber(v: Value): Option<real> {
    match v
    case Number(n) => Some(n)
    case Boolean(b) => Some(if b then 1.0 else 0.0)
    case _ => None
  }

  /** Equality as the host language compares values: Booleans equal 0 and 1. */
  predicate HostEqual(x: Value, y: Value) {
    x == y || (AsNumber(x).Some? && AsNumber(x) == AsNumber(y))
  }

  /** Numbers by value, Booleans as 1 and 0, anything else only itself. */
  lemma {:induction false} HostEqualIs(x: Value, y: Value, n: real, b: bool)
    ensures HostEqual(Number(n), y) <==> y == Number(n) || (y.Boolean? && n == if y.b then 1.0 else 0.0)
    ensures HostEqual(Boolean(b), y) <==> y == Boolean(b) || y == Number(if b then 1.0 else 0.0)
    ensures x.Null? || x.Text? || x.Structured? ==> (HostEqual(x, y) <==> x == y)
  {
  }

  function Field(record: map<string, Value>, name: string): Value {
    if name in record then record[name] else Null
  }

  predicate GroupMatches(g: Group, a: Assignments) {
    && (forall name | name in g.components :: g.components[name] in a && a[g.components[name]].PresentWith?)
    && exists record | record in g.records ::
         forall name | name in g.components :: HostEqual(Field(record, name), a[g.components[name]].value)
  }

  /** Identifier components were observed together in one record. */
  predicate RecordsMatch(groups: seq<Group>, a: Assignments) {
    forall g | g in groups :: GroupMatches(g, a)
  }

  // ---------------------------------------------------------------- brute force

  /** What a joint candidate yields: its overrides when completion, records and constraints all accept it. */
  ghost function Solution(pb: Problem, rank: map<NodeId, nat>, sel: Assignments): Option<Assignments>
    requires Forest(pb.nodes, rank)
  {
    if !(sel.Keys <= pb.nodes.Keys) || Conflicting(sel, pb.nodes, rank) then None
    else
      var full := FullAssignments(sel, pb.baseline, pb.nodes, rank);
      if RecordsMatch(pb.groups, full) && EvalSet(pb.constraints, full, pb.re)
      then Some(FullOverrides(sel, pb.baseline, pb.nodes, rank))
      else None
  }

  /** Choice of one candidate for each unit from the k-th on. */
  ghost predicate IsChoice(pb: Problem, k: nat, choice: seq<nat>)
    requires k <= |pb.units|
  {
    |choice| == |pb.units| - k && forall i | 0 <= i < |choice| :: choice[i] < |pb.units[k + i].candidates|
  }

  ghost function Joint(pb: Problem, sel: Assignments, k: nat, choice: seq<nat>): Assignments
    requires k <= |pb.units| && IsChoice(pb, k, choice)
    decreases |choice|
  {
    if choice == [] then sel
    else
      assert forall i | 0 <= i < |choice[1..]| :: choice[1..][i] == choice[i + 1];
      Joint(pb, sel + pb.units[k].candidates[choice[0]], k + 1, choice[1..])
  }

  predicate LexLess(a: seq<nat>, b: seq<nat>) {
    if b == [] then false
    else if a == [] then true
    else a[0] < b[0] || (a[0] == b[0] && LexLess(a[1..], b[1..]))
  }

  /** Of two choices for the same units, the one with the smaller candidate at the first difference comes first. */
  lemma {:induction false} LexLessIs(a: seq<nat>, b: seq<nat>)
    requires |a| == |b|
    ensures LexLess(a, b) <==> exists i | 0 <= i < |a| :: a[..i] == b[..i] && a[i] < b[i]
  {
    if a != [] {
      LexLessIs(a[1..], b[1..]);
      if LexLess(a[1..], b[1..]) && a[0] == b[0] {
        var i :| 0 <= i < |a| - 1 && a[1..][..i] == b[1..][..i] && a[1..][i] < b[1..][i];
        assert a[..i + 1] == [a[0]] + a[1..][..i] && b[..i + 1] == [b[0]] + b[1..][..i];
      }
      if i :| 0 < i < |a| && a[..i] == b[..i] && a[i] < b[i] {
        assert a[0] == a[..i][0] == b[..i][0] == b[0];
        assert a[1..][..i - 1] == a[..i][1..] && b[1..][..i - 1] == b[..i][1..];
      }
    }
  }

  // ---------------------------------------------------------------- the pruned search, as a function

  ghost predicate Chosen(pb: Problem, sel: Assignments, k: nat) {
    k <= |pb.units| && sel.Keys == UnitIds(pb.units, k)
  }

  lemma {:induction false} ChosenKnown(pb: Problem, rank: map<NodeId, nat>, sel: Assignments, k: nat)
    requires WellFormed(pb, rank) && Chosen(pb, sel, k)
    ensures sel.Keys <= UnitIds(pb.units, |pb.units|) <= pb.nodes.Keys
    ensures Forest(pb.nodes, rank)
    ensures k < |pb.units| ==> IdsOf(pb.units[k]) * sel.Keys == {}
    ensures k < |pb.units| ==> forall c | c in pb.units[k].candidates ::
              c.Keys == IdsOf(pb.units[k]) && Chosen(pb, sel + c, k + 1)
  {
    if k < |pb.units| {
      UnitIdsStep(pb.units, k);
      assert forall i, id | 0 <= i < k && id in pb.units[i].nodeIds ::
          id in IdsOf(pb.units[i]) && (id in IdsOf(pb.units[k]) ==> id in IdsOf(pb.units[i]) * IdsOf(pb.units[k]));
    }
  }

  lemma {:induction false} UnitIdsStep(units: seq<Unit>, k: nat)
    requires k < |units|
    ensures UnitIds(units, k + 1) == UnitIds(units, k) + IdsOf(units[k])
  {
  }

  /** The branch is cut: its prefix is incoherent or already decides some constraint to be false. */
  ghost predicate Pruned(pb: Problem, rank: map<NodeId, nat>, sel: Assignments)
    requires Forest(pb.nodes, rank)
  {
    || !(sel.Keys <= pb.nodes.Keys)
    || Conflicting(sel, pb.nodes, rank)
    || PartialEvalSet(pb.constraints, PartialView(sel, pb.nodes, rank), pb.re) == Fails
  }

  /** Joint candidates the search completes below `sel`, in search order. */
  ghost function Kept(pb: Problem, rank: map<NodeId, nat>, sel: Assignments, k: nat): seq<Assignments>
    requires WellFormed(pb, rank) && Chosen(pb, sel, k)
    decreases |pb.units| - k, 0, 0
  {
    if k == |pb.units| then [sel] else KeptFrom(pb, rank, sel, k, 0)
  }

  /** The same below a prefix that may be cut. */
  ghost function Reached(pb: Problem, rank: map<NodeId, nat>, sel: Assignments, k: nat): seq<Assignments>
    requires WellFormed(pb, rank) && Chosen(pb, sel, k)
    decreases |pb.units| - k, 1, 0
  {
    if k < |pb.units| && Pruned(pb, rank, sel) then [] else Kept(pb, rank, sel, k)
  }

  ghost function KeptFrom(pb: Problem, rank: map<NodeId, nat>, sel: Assignments, k: nat, j: nat): seq<Assignments>
    requires WellFormed(pb, rank) && Chosen(pb, sel, k) && k < |pb.units| && j <= |pb.units[k].candidates|
    decreases |pb.units| - k - 1, 2, |pb.units[k].candidates| - j
  {
    if j == |pb.units[k].candidates| then []
    else
      ChosenKnown(pb, rank, sel, k);
      Reached(pb, rank, sel + pb.units[k].candidates[j], k + 1) + KeptFrom(pb, rank, sel, k, j + 1)
  }

  datatype Scan = Scan(result: Option<Assignments>, explored: nat, exhausted: bool)

  /** Evaluate leaves in order until one is a solution or the state cap stops the search. */
  ghost function ScanLeaves(pb: Problem, rank: map<NodeId, nat>, leaves: seq<Assignments>, explored: nat): Scan
    requires Forest(pb.nodes, rank)
  {
    if leaves == [] then Scan(None, explored, false)
    else if explored >= pb.maxStates then Scan(None, explored, true)
    else
      var found := Solution(pb, rank, leaves[0]);
      if found.Some? then Scan(found, explored + 1, false)
      else ScanLeaves(pb, rank, leaves[1..], explored + 1)
  }

  lemma {:induction false} ScanSplits(pb: Problem, rank: map<NodeId, nat>, xs: seq<Assignments>, ys: seq<Assignments>,
                                      explored: nat)
    requires Forest(pb.nodes, rank)
    ensures var s := ScanLeaves(pb, rank, xs, explored);
            ScanLeaves(pb, rank, xs + ys, explored)
            == if s.result.Some? || s.exhausted then s else ScanLeaves(pb, rank, ys, s.explored)
  {
    if xs == [] {
      assert xs + ys == ys;
    } else {
      assert (xs + ys)[1..] == xs[1..] + ys;
      if explored < pb.maxStates && Solution(pb, rank, xs[0]).None? {
        ScanSplits(pb, rank, xs[1..], ys, explored + 1);
      }
    }
  }

  /** One turn of the candidate loop, on the functional description. */
  lemma {:induction false} NextCandidate(pb: Problem, rank: map<NodeId, nat>, sel: Assignments, k: nat, j: nat,
                                         explored: nat)
    requires WellFormed(pb, rank) && Chosen(pb, sel, k) && k < |pb.units| && j < |pb.units[k].candidates|
    ensures var candidate := pb.units[k].candidates[j];
            && candidate.Keys == IdsOf(pb.units[k])
            && Chosen(pb, sel + candidate, k + 1)
            && ScanLeaves(pb, rank, KeptFrom(pb, rank, sel, k, j), explored)
               == var s := ScanLeaves(pb, rank, Reached(pb, rank, sel + candidate, k + 1), explored);
                  if s.result.Some? || s.exhausted then s
                  else ScanLeaves(pb, rank, KeptFrom(pb, rank, sel, k, j + 1), s.explored)
  {
    assert pb.units[k].candidates[j] in pb.units[k].candidates;
    ChosenKnown(pb, rank, sel, k);
    var next := sel + pb.units[k].candidates[j];
    ScanSplits(pb, rank, Reached(pb, rank, next, k + 1), KeptFrom(pb, rank, sel, k, j + 1), explored);
  }

  lemma {:induction false} LoopEnds(pb: Problem, rank: map<NodeId, nat>, sel: Assignments, k: nat, explored: nat)
    requires WellFormed(pb, rank) && Chosen(pb, sel, k) && k < |pb.units|
    ensures Kept(pb, rank, sel, k) == KeptFrom(pb, rank, sel, k, 0)
    ensures ScanLeaves(pb, rank, KeptFrom(pb, rank, sel, k, |pb.units[k].candidates|), explored)
              == Scan(None, explored, false)
  {
  }

  lemma {:induction false} Reassign(prefix: Assignments, selected: Assignments, candidate: Assignments)
    requires Extends(prefix, selected) && selected.Keys <= prefix.Keys + candidate.Keys
    requires candidate.Keys * prefix.Keys == {}
    ensures selected + candidate == prefix + candidate && Extends(prefix, prefix + candidate)
  {
    assert forall id :: id in candidate.Keys * prefix.Keys <==> id in candidate && id in prefix;
  }

  lemma {:induction false} Restore(prefix: Assignments, selected: Assignments, ids: set<NodeId>)
    requires Extends(prefix, selected) && selected.Keys <= prefix.Keys + ids
    requires ids * prefix.Keys == {}
    ensures selected - ids == prefix
  {
    assert forall id :: id in ids * prefix.Keys <==> id in ids && id in prefix;
  }

  // ---------------------------------------------------------------- the search itself

  class Search {
    const pb: Problem
    ghost const rank: map<NodeId, nat>
    var selected: Assignments
    var explored: nat
    var exhausted: bool

    constructor (pb: Problem, ghost rank: map<NodeId, nat>)
      ensures this.pb == pb && this.rank == rank
      ensures selected == map[] && explored == 0 && !exhausted
    {
      this.pb := pb;
      this.rank := rank;
      selected, explored, exhausted := map[], 0, false;
    }

    /** A complete selection: count it, complete it, and test it. */
    method EvaluateLeaf() returns (r: Option<Assignments>)
      requires WellFormed(pb, rank) && Chosen(pb, selected, |pb.units|) && selected.Keys <= pb.nodes.Keys && !exhausted
      modifies this`explored, this`exhausted
      ensures Scan(r, explored, exhausted) == ScanLeaves(pb, rank, [selected], old(explored))
    {
      if explored >= pb.maxStates {
        exhausted := true;
        return None;
      }
      explored := explored + 1;
      var completed := CompleteCandidate(selected, pb.baseline, pb.nodes, rank);
      if completed.None? {
        return None;
      }
      var (assignments, overrides) := completed.value;
      if !RecordsMatch(pb.groups, assignments) {
        return None;
      }
      if EvalSet(pb.constraints, assignments, pb.re) {
        return Some(overrides);
      }
      return None;
    }

    /** A prefix that no later choice can repair; complete selections are never cut. */
    method Cut(index: nat) returns (cut: bool)
      requires WellFormed(pb, rank) && Chosen(pb, selected, index) && selected.Keys <= pb.nodes.Keys
      ensures cut <==> index < |pb.units| && Pruned(pb, rank, selected)
    {
      if index < |pb.units| {
        var partial := PartialCandidate(selected, pb.nodes, rank);
        cut := partial.None? || PartialEvalSet(pb.constraints, partial.value, pb.re) == Fails;
      } else {
        cut := false;
      }
    }

    /** Explore the units from `index` on, unless the current prefix is cut. */
    method Descend(index: nat) returns (r: Option<Assignments>)
      requires WellFormed(pb, rank) && Chosen(pb, selected, index) && !exhausted
      modifies this
      ensures Scan(r, explored, exhausted)
                == ScanLeaves(pb, rank, Reached(pb, rank, old(selected), index), old(explored))
      ensures r.None? && !exhausted ==> selected == old(selected)
      decreases |pb.units| - index, 2
    {
      ChosenKnown(pb, rank, selected, index);
      var cut := Cut(index);
      if cut {
        return None;
      }
      r := From(index);
    }

    /** Explore the units from `index` on and stop at the first complete solution. */
    method From(index: nat) returns (r: Option<Assignments>)
      requires WellFormed(pb, rank) && Chosen(pb, selected, index) && !exhausted
      modifies this
      ensures Scan(r, explored, exhausted) == ScanLeaves(pb, rank, Kept(pb, rank, old(selected), index), old(explored))
      ensures r.None? && !exhausted ==> selected == old(selected)
      decreases |pb.units| - index, 1
    {
      ChosenKnown(pb, rank, selected, index);
      if index == |pb.units| {
        r := EvaluateLeaf();
      } else {
        r := TryCandidates(index);
      }
    }

    /** Try the candidates of one unit in order, searching the later units below each. */
    method TryCandidates(index: nat) returns (r: Option<Assignments>)
      requires WellFormed(pb, rank) && Chosen(pb, selected, index) && index < |pb.units| && !exhausted
      modifies this
      ensures Scan(r, explored, exhausted)
           == ScanLeaves(pb, rank, KeptFrom(pb, rank, old(selected), index, 0), old(explored))
      ensures r.None? && !exhausted ==> selected == old(selected)
      decreases |pb.units| - index, 0
    {
      hide WellFormed, Chosen, UnitIds, KeptFrom, Reached, ScanLeaves;
      ghost var prefix, before := selected, explored;
      ChosenKnown(pb, rank, selected, index);
      var unit := pb.units[index];
      for j := 0 to |unit.candidates|
        invariant !exhausted
        invariant selected.Keys <= prefix.Keys + IdsOf(unit) && Extends(prefix, selected)
        invariant ScanLeaves(pb, rank, KeptFrom(pb, rank, prefix, index, 0), before)
               == ScanLeaves(pb, rank, KeptFrom(pb, rank, prefix, index, j), explored)
      {
        var candidate := unit.candidates[j];
        NextCandidate(pb, rank, prefix, index, j, explored);
        Reassign(prefix, selected, candidate);
        selected := selected + candidate;
        r := Descend(index + 1);
        if r.Some? || exhausted {
          return;
        }
      }
      r := None;
      LoopEnds(pb, rank, prefix, index, explored);
      Restore(prefix, selected, IdsOf(unit));
      selected := selected - IdsOf(unit);
    }
  }

  // ---------------------------------------------------------------- refinement of brute force

  lemma {:induction false} JointStep(pb: Problem, rank: map<NodeId, nat>, sel: Assignments, k: nat, choice: seq<nat>)
    requires WellFormed(pb, rank) && Chosen(pb, sel, k) && k < |pb.units| && IsChoice(pb, k, choice)
    ensures IsChoice(pb, k + 1, choice[1..]) && choice[0] < |pb.units[k].candidates|
    ensures var c := pb.units[k].candidates[choice[0]];
            && Chosen(pb, sel + c, k + 1) && Extends(sel, sel + c)
            && Joint(pb, sel, k, choice) == Joint(pb, sel + c, k + 1, choice[1..])
  {
    assert forall i | 0 <= i < |choice[1..]| :: choice[1..][i] == choice[i + 1];
    ChosenKnown(pb, rank, sel, k);
    var c := pb.units[k].candidates[choice[0]];
    assert c in pb.units[k].candidates;
    Reassign(sel, sel, c);
  }

  lemma {:induction false} JointExtends(pb: Problem, rank: map<NodeId, nat>, sel: Assignments, k: nat, choice: seq<nat>)
    requires WellFormed(pb, rank) && Chosen(pb, sel, k) && IsChoice(pb, k, choice)
    ensures Extends(sel, Joint(pb, sel, k, choice))
    ensures Chosen(pb, Joint(pb, sel, k, choice), |pb.units|)
    decreases |choice|
  {
    hide Forest, ReadsOnlyLeaves, UnitIds;
    if choice != [] {
      JointStep(pb, rank, sel, k, choice);
      JointExtends(pb, rank, sel + pb.units[k].candidates[choice[0]], k + 1, choice[1..]);
    }
  }

  /** No completion of a pruned prefix is a solution. */
  lemma {:induction false} PrunedHasNoSolution(pb: Problem, rank: map<NodeId, nat>, sel: Assignments, k: nat,
                                               choice: seq<nat>)
    requires WellFormed(pb, rank) && Prunable(pb, rank) && Chosen(pb, sel, k) && IsChoice(pb, k, choice)
    requires Pruned(pb, rank, sel)
    ensures Solution(pb, rank, Joint(pb, sel, k, choice)) == None
  {
    var full := Joint(pb, sel, k, choice);
    JointExtends(pb, rank, sel, k, choice);
    ChosenKnown(pb, rank, full, |pb.units|);
    DerivedGrows(sel, full, pb.nodes, rank);
    if !Conflicting(full, pb.nodes, rank) {
      PartialViewAgrees(sel, full, pb.baseline, ReadRefsOf(pb.constraints), PresenceRefsOf(pb.constraints),
                        pb.nodes, rank);
      PartialSetSoundFor(pb.constraints, PartialView(sel, pb.nodes, rank),
                         FullAssignments(full, pb.baseline, pb.nodes, rank), pb.re);
    }
  }

  /** `r` is what the lexicographically first solution among the choices from unit k on yields. */
  ghost predicate IsFirst(pb: Problem, rank: map<NodeId, nat>, sel: Assignments, k: nat, r: Option<Assignments>)
    requires Forest(pb.nodes, rank) && k <= |pb.units|
  {
    IsFirstFrom(pb, rank, sel, k, 0, r)
  }

  /** The same among the choices whose first component is at least j. */
  ghost predicate IsFirstFrom(pb: Problem, rank: map<NodeId, nat>, sel: Assignments, k: nat, j: nat,
                              r: Option<Assignments>)
    requires Forest(pb.nodes, rank) && k <= |pb.units|
  {
    match r
    case None =>
      forall choice | IsChoice(pb, k, choice) && AtLeast(choice, j) :: Yields(pb, rank, sel, k, choice) == None
    case Some(overrides) =>
      exists choice | IsChoice(pb, k, choice) && AtLeast(choice, j) ::
        && Yields(pb, rank, sel, k, choice) == Some(overrides)
        && forall other | IsChoice(pb, k, other) && AtLeast(other, j) && LexLess(other, choice) ::
             Yields(pb, rank, sel, k, other) == None
  }

  ghost predicate AtLeast(choice: seq<nat>, j: nat) {
    choice == [] || choice[0] >= j
  }

  ghost function Yields(pb: Problem, rank: map<NodeId, nat>, sel: Assignments, k: nat, choice: seq<nat>)
    : Option<Assignments>
    requires Forest(pb.nodes, rank) && k <= |pb.units| && IsChoice(pb, k, choice)
  {
    Solution(pb, rank, Joint(pb, sel, k, choice))
  }

  ghost function FirstSolution(pb: Problem, rank: map<NodeId, nat>, leaves: seq<Assignments>): Option<Assignments>
    requires Forest(pb.nodes, rank)
  {
    if leaves == [] then None
    else if Solution(pb, rank, leaves[0]).Some? then Solution(pb, rank, leaves[0])
    else FirstSolution(pb, rank, leaves[1..])
  }

  lemma {:induction false} FirstOfParts(pb: Problem, rank: map<NodeId, nat>, xs: seq<Assignments>, ys: seq<Assignments>)
    requires Forest(pb.nodes, rank)
    ensures FirstSolution(pb, rank, xs + ys)
         == if FirstSolution(pb, rank, xs).Some? then FirstSolution(pb, rank, xs) else FirstSolution(pb, rank, ys)
  {
    if xs == [] {
      assert xs + ys == ys;
    } else {
      assert (xs + ys)[1..] == xs[1..] + ys;
      FirstOfParts(pb, rank, xs[1..], ys);
    }
  }

  lemma {:induction false} StepYields(pb: Problem, rank: map<NodeId, nat>, sel: Assignments, k: nat, choice: seq<nat>)
    requires WellFormed(pb, rank) && Chosen(pb, sel, k) && k < |pb.units| && IsChoice(pb, k, choice)
    ensures IsChoice(pb, k + 1, choice[1..]) && choice[0] < |pb.units[k].candidates|
    ensures Yields(pb, rank, sel, k, choice)
         == Yields(pb, rank, sel + pb.units[k].candidates[choice[0]], k + 1, choice[1..])
  {
    JointStep(pb, rank, sel, k, choice);
  }

  lemma {:induction false} PrependChoice(pb: Problem, k: nat, j: nat, rest: seq<nat>)
    requires k < |pb.units| && j < |pb.units[k].candidates| && IsChoice(pb, k + 1, rest)
    ensures IsChoice(pb, k, [j] + rest) && ([j] + rest)[1..] == rest
  {
  }

  /** Putting together what candidate j yields and what the later candidates yield. */
  lemma {:induction false} CombineFirst(pb: Problem, rank: map<NodeId, nat>, sel: Assignments, k: nat, j: nat,
                                        below: Option<Assignments>, later: Option<Assignments>)
    requires WellFormed(pb, rank) && Chosen(pb, sel, k) && k < |pb.units| && j < |pb.units[k].candidates|
    requires IsFirst(pb, rank, sel + pb.units[k].candidates[j], k + 1, below)
    requires IsFirstFrom(pb, rank, sel, k, j + 1, later)
    ensures IsFirstFrom(pb, rank, sel, k, j, if below.Some? then below else later)
  {
    hide WellFormed, Chosen, Forest, Yields, LexLess;
    ChosenKnown(pb, rank, sel, k);
    if below.Some? {
      FirstBelow(pb, rank, sel, k, j, below.value);
    } else {
      forall choice | IsChoice(pb, k, choice) && AtLeast(choice, j) && !AtLeast(choice, j + 1)
        ensures Yields(pb, rank, sel, k, choice) == None
      {
        StepYields(pb, rank, sel, k, choice);
      }
      if later.Some? {
        var choice :| IsChoice(pb, k, choice) && AtLeast(choice, j + 1) && Yields(pb, rank, sel, k, choice) == later
                      && forall other | IsChoice(pb, k, other) && AtLeast(other, j + 1) && LexLess(other, choice) ::
                           Yields(pb, rank, sel, k, other) == None;
        assert AtLeast(choice, j);
      }
    }
  }

  lemma {:induction false} FirstBelow(pb: Problem, rank: map<NodeId, nat>, sel: Assignments, k: nat, j: nat,
                                      overrides: Assignments)
    requires WellFormed(pb, rank) && Chosen(pb, sel, k) && k < |pb.units| && j < |pb.units[k].candidates|
    requires IsFirst(pb, rank, sel + pb.units[k].candidates[j], k + 1, Some(overrides))
    ensures IsFirstFrom(pb, rank, sel, k, j, Some(overrides))
  {
    hide WellFormed, Chosen, Forest, Yields;
    ChosenKnown(pb, rank, sel, k);
    var next := sel + pb.units[k].candidates[j];
    var rest :| IsChoice(pb, k + 1, rest) && Yields(pb, rank, next, k + 1, rest) == Some(overrides)
                && forall other | IsChoice(pb, k + 1, other) && AtLeast(other, 0) && LexLess(other, rest) ::
                     Yields(pb, rank, next, k + 1, other) == None;
    PrependChoice(pb, k, j, rest);
    var choice := [j] + rest;
    StepYields(pb, rank, sel, k, choice);
    forall other | IsChoice(pb, k, other) && AtLeast(other, j) && LexLess(other, choice)
      ensures Yields(pb, rank, sel, k, other) == None
    {
      StepYields(pb, rank, sel, k, other);
      assert other[0] == j && LexLess(other[1..], rest);
      assert AtLeast(other[1..], 0);
    }
    assert AtLeast(choice, j);
  }

  /** The first solution among the leaves the search reaches is the first among all joint candidates. */
  lemma {:induction false} KeptFirst(pb: Problem, rank: map<NodeId, nat>, sel: Assignments, k: nat)
    requires WellFormed(pb, rank) && Prunable(pb, rank) && Chosen(pb, sel, k)
    ensures IsFirst(pb, rank, sel, k, FirstSolution(pb, rank, Kept(pb, rank, sel, k)))
    decreases |pb.units| - k, 0, 0
  {
    if k == |pb.units| {
      assert forall choice :: IsChoice(pb, k, choice) <==> choice == [];
      assert Yields(pb, rank, sel, k, []) == Solution(pb, rank, sel);
    } else {
      KeptFromFirst(pb, rank, sel, k, 0);
    }
  }

  lemma {:induction false} ReachedFirst(pb: Problem, rank: map<NodeId, nat>, sel: Assignments, k: nat)
    requires WellFormed(pb, rank) && Prunable(pb, rank) && Chosen(pb, sel, k)
    ensures IsFirst(pb, rank, sel, k, FirstSolution(pb, rank, Reached(pb, rank, sel, k)))
    decreases |pb.units| - k, 1, 0
  {
    if k < |pb.units| && Pruned(pb, rank, sel) {
      forall choice | IsChoice(pb, k, choice)
        ensures Yields(pb, rank, sel, k, choice) == None
      {
        PrunedHasNoSolution(pb, rank, sel, k, choice);
      }
    } else {
      KeptFirst(pb, rank, sel, k);
    }
  }

  lemma {:induction false} KeptFromFirst(pb: Problem, rank: map<NodeId, nat>, sel: Assignments, k: nat, j: nat)
    requires WellFormed(pb, rank) && Prunable(pb, rank)
    requires Chosen(pb, sel, k) && k < |pb.units| && j <= |pb.units[k].candidates|
    ensures IsFirstFrom(pb, rank, sel, k, j, FirstSolution(pb, rank, KeptFrom(pb, rank, sel, k, j)))
    decreases |pb.units| - k - 1, 2, |pb.units[k].candidates| - j
  {
    if j < |pb.units[k].candidates| {
      ChosenKnown(pb, rank, sel, k);
      var next := sel + pb.units[k].candidates[j];
      assert pb.units[k].candidates[j] in pb.units[k].candidates;
      ReachedFirst(pb, rank, next, k + 1);
      KeptFromFirst(pb, rank, sel, k, j + 1);
      FirstOfParts(pb, rank, Reached(pb, rank, next, k + 1), KeptFrom(pb, rank, sel, k, j + 1));
      CombineFirst(pb, rank, sel, k, j, FirstSolution(pb, rank, Reached(pb, rank, next, k + 1)),
                   FirstSolution(pb, rank, KeptFrom(pb, rank, sel, k, j + 1)));
    }
  }

  /** Position of the first solution, or the length when there is none. */
  ghost function FirstIndex(pb: Problem, rank: map<NodeId, nat>, leaves: seq<Assignments>): nat
    requires Forest(pb.nodes, rank)
  {
    if leaves == [] || Solution(pb, rank, leaves[0]).Some? then 0 else 1 + FirstIndex(pb, rank, leaves[1..])
  }

  /** A capped scan stops at the first solution, at the end, or at the cap: whichever comes first. */
  lemma {:induction false} ScanOutcome(pb: Problem, rank: map<NodeId, nat>, leaves: seq<Assignments>, explored: nat)
    requires Forest(pb.nodes, rank) && explored <= pb.maxStates
    ensures FirstIndex(pb, rank, leaves) <= |leaves|
    ensures FirstIndex(pb, rank, leaves) == |leaves| <==> FirstSolution(pb, rank, leaves).None?
    ensures var s, first := ScanLeaves(pb, rank, leaves, explored), FirstIndex(pb, rank, leaves);
            if first < |leaves| && explored + first < pb.maxStates
            then s == Scan(FirstSolution(pb, rank, leaves), explored + first + 1, false)
            else if first == |leaves| && explored + first <= pb.maxStates
            then s == Scan(None, explored + first, false)
            else s == Scan(None, pb.maxStates, true)
  {
    if leaves != [] && Solution(pb, rank, leaves[0]).None? && explored < pb.maxStates {
      ScanOutcome(pb, rank, leaves[1..], explored + 1);
    } else if leaves != [] {
      FirstIndexBound(pb, rank, leaves);
    }
  }

  lemma {:induction false} FirstIndexBound(pb: Problem, rank: map<NodeId, nat>, leaves: seq<Assignments>)
    requires Forest(pb.nodes, rank)
    ensures FirstIndex(pb, rank, leaves) <= |leaves|
    ensures FirstIndex(pb, rank, leaves) == |leaves| <==> FirstSolution(pb, rank, leaves).None?
  {
    if leaves != [] && Solution(pb, rank, leaves[0]).None? {
      FirstIndexBound(pb, rank, leaves[1..]);
    }
  }

  /** The leaves of a whole search. */
  ghost function SearchLeaves(pb: Problem, rank: map<NodeId, nat>): seq<Assignments>
    requires WellFormed(pb, rank)
  {
    NothingChosen(pb);
    Kept(pb, rank, map[], 0)
  }

  lemma NothingChosen(pb: Problem)
    ensures Chosen(pb, map[], 0)
  {
    assert UnitIds(pb.units, 0) == {};
  }

  /**
   The optimised search is brute force with a cap. A returned solution is the
   lexicographically first one; unsatisfiable means that no joint candidate is a
   solution; exhausted means that the cap was spent on leaves before any solution.
   */
  method Solve(pb: Problem, ghost rank: map<NodeId, nat>) returns (r: Result<Assignments, SolveError>)
    requires WellFormed(pb, rank)
    ensures pb.maxStates < 1 <==> r == Err(InvalidLimit)
    ensures r.Err? ==> !r.error.EmptyDomain?
    ensures r.Ok? && Prunable(pb, rank) ==> IsFirst(pb, rank, map[], 0, Some(r.value))
    ensures r == Err(Unsatisfiable) && Prunable(pb, rank) ==> IsFirst(pb, rank, map[], 0, None)
    ensures pb.maxStates >= 1 ==>
              var leaves := SearchLeaves(pb, rank);
              var first := FirstIndex(pb, rank, leaves);
              && (r.Ok? <==> first < |leaves| && first < pb.maxStates)
              && (r == Err(Unsatisfiable) <==> first == |leaves| && |leaves| <= pb.maxStates)
              && (r == Err(Exhausted) <==> first >= pb.maxStates && |leaves| > pb.maxStates)
  {
    if pb.maxStates < 1 {
      return Err(InvalidLimit);
    }
    hide WellFormed, Prunable, Forest, Kept, ScanLeaves, FirstIndex, FirstSolution, IsFirst, Chosen;
    NothingChosen(pb);
    var search := new Search(pb, rank);
    var solution := search.From(0);
    if Prunable(pb, rank) {
      KeptFirst(pb, rank, map[], 0);
    }
    ChosenKnown(pb, rank, map[], 0);
    ScanOutcome(pb, rank, SearchLeaves(pb, rank), 0);
    if solution.Some? {
      return Ok(solution.value);
    }
    if search.exhausted {
      return Err(Exhausted);
    }
    return Err(Unsatisfiable);
  }

  /**
   `p` is chosen with value 1 and fails "p is not 1", but completing the present
   child `c` strips the value from `p`. Validated constraints never read such a `p` (constraint_solver.py:85).
   */
  function Counterexample(re: Regex): Problem {
    Problem(
      [Unit(["p"], [map["p" := PresentWith(Number(1.0))]]), Unit(["c"], [map["c" := Present]])],
      map["p" := None, "c" := Some("p")],
      map[], [Not(Compare(Eq, Input("p"), Literal(Number(1.0))))], [], re, 1)
  }

  const COUNTEREXAMPLE_RANK: map<NodeId, nat> := map["p" := 0, "c" := 1]

  /**
   Why pruning needs validated constraints: without the side condition the only branch is cut, yet it holds a solution.
   */
  lemma {:induction false} PruningNeedsLeaves(re: Regex)
    ensures var pb, rank := Counterexample(re), COUNTEREXAMPLE_RANK;
            && WellFormed(pb, rank) && !Prunable(pb, rank)
            && SearchLeaves(pb, rank) == [] && !IsFirst(pb, rank, map[], 0, None)
  {
    hide Prunable, SearchLeaves, IsFirst, Forest, UnitIds, IsCounterexample;
    var pb, rank := Counterexample(re), COUNTEREXAMPLE_RANK;
    CounterexampleForest(pb, rank);
    CounterexampleShape(pb, rank);
    CounterexampleNotPrunable(pb, rank);
    CounterexampleCut(pb, rank);
    CounterexampleSolved(pb, rank);
  }

  lemma {:induction false} CounterexampleForest(pb: Problem, rank: map<NodeId, nat>)
    requires pb.nodes == map["p" := None, "c" := Some("p")] && rank == COUNTEREXAMPLE_RANK
    ensures Forest(pb.nodes, rank)
    ensures Ancestors("p", pb.nodes, rank) == {} && Ancestors("c", pb.nodes, rank) == {"p"}
  {
    assert ParentOf("p", pb.nodes) == None && ParentOf("c", pb.nodes) == Some("p");
  }

  lemma {:induction false} CounterexampleShape(pb: Problem, rank: map<NodeId, nat>)
    requires pb.units == [Unit(["p"], [map["p" := PresentWith(Number(1.0))]]), Unit(["c"], [map["c" := Present]])]
    requires pb.nodes == map["p" := None, "c" := Some("p")]
    requires Forest(pb.nodes, rank)
    requires Ancestors("p", pb.nodes, rank) == {} && Ancestors("c", pb.nodes, rank) == {"p"}
    requires pb.baseline == map[] && pb.groups == []
    requires pb.constraints == [Not(Compare(Eq, Input("p"), Literal(Number(1.0))))]
    ensures WellFormed(pb, rank) && IsCounterexample(pb, rank)
  {
    hide Forest, Ancestors;
    assert IdsOf(pb.units[0]) == {"p"} && IdsOf(pb.units[1]) == {"c"};
    UnitIdsStep(pb.units, 0);
    UnitIdsStep(pb.units, 1);
    assert pb.units[0].candidates[0].Keys == {"p"} && pb.units[1].candidates[0].Keys == {"c"};
  }

  ghost predicate IsCounterexample(pb: Problem, rank: map<NodeId, nat>) {
    && pb.units == [Unit(["p"], [map["p" := PresentWith(Number(1.0))]]), Unit(["c"], [map["c" := Present]])]
    && pb.nodes == map["p" := None, "c" := Some("p")]
    && pb.baseline == map[]
    && pb.constraints == [Not(Compare(Eq, Input("p"), Literal(Number(1.0))))]
    && pb.groups == []
    && WellFormed(pb, rank)
    && Ancestors("p", pb.nodes, rank) == {}
    && Ancestors("c", pb.nodes, rank) == {"p"}
  }

  lemma {:induction false} CounterexampleNotPrunable(pb: Problem, rank: map<NodeId, nat>)
    requires IsCounterexample(pb, rank)
    ensures !Prunable(pb, rank)
  {
    assert "c" in IdsOf(pb.units[1]);
    UnitIdsStep(pb.units, 1);
    assert ReadRefs(pb.constraints[0]) == {"p"};
    assert "p" in ReadRefsOf(pb.constraints);
  }

  lemma {:induction false} CounterexampleCut(pb: Problem, rank: map<NodeId, nat>)
    requires IsCounterexample(pb, rank)
    ensures SearchLeaves(pb, rank) == []
  {
    NothingChosen(pb);
    ChosenKnown(pb, rank, map[], 0);
    var sel: Assignments := map["p" := PresentWith(Number(1.0))];
    assert map[] + pb.units[0].candidates[0] == sel;
    assert Derived(sel, sel.Keys, pb.nodes, rank) == {};
    assert PartialView(sel, pb.nodes, rank) == sel;
    assert PartialEval(pb.constraints[0], sel, pb.re) == Fails;
    assert Pruned(pb, rank, sel);
    assert |pb.units[0].candidates| == 1;
    assert Reached(pb, rank, sel, 1) == [];
    assert KeptFrom(pb, rank, map[], 0, 1) == [];
    assert KeptFrom(pb, rank, map[], 0, 0) == [] by {
      assert pb.units[0].candidates[0] in pb.units[0].candidates;
    }
  }

  lemma {:induction false} CounterexampleSolved(pb: Problem, rank: map<NodeId, nat>)
    requires IsCounterexample(pb, rank)
    ensures !IsFirst(pb, rank, map[], 0, None)
  {
    var sel: Assignments := map["p" := PresentWith(Number(1.0)), "c" := Present];
    var choice: seq<nat> := [0, 0];
    assert IsChoice(pb, 0, choice);
    assert Joint(pb, map[], 0, choice) == sel by {
      assert map[] + pb.units[0].candidates[0] + pb.units[1].candidates[0] == sel;
      assert choice[1..] == [0] && choice[1..][1..] == [];
    }
    assert Derived(sel, sel.Keys, pb.nodes, rank) == {"p"};
    var full := FullAssignments(sel, pb.baseline, pb.nodes, rank);
    assert full["p"] == Present;
    assert Eval(pb.constraints[0], full, pb.re);
    assert AtLeast(choice, 0) && Yields(pb, rank, map[], 0, choice).Some?;
  }
}
