/**
 Search units: scalar domains, with the components of one resource identity joined
 into whole observed records (restscope/request_generation/constraint_solver.py).
 */
module SearchUnits {
  import opened Wrappers
  import opened Constraints
  import opened RequestTree
  import opened Solver
  import opened ResourceGroups
  import opened Sorting

  type Record = map<string, Value>

  type Records = map<string, seq<Record>>

  // ---------------------------------------------------------------- candidates from records

  predicate IsComplete(record: Record, components: seq<Component>) {
    forall c | c in components :: c.field in record
  }

  /** Values a complete record gives to the inputs of its group; a later component wins a shared input. */
  function Project(record: Record, components: seq<Component>): Assignments
    requires IsComplete(record, components)
  {
    if components == [] then map[]
    else
      var last := components[|components| - 1];
      Project(record, components[..|components| - 1])[last.nodeId := PresentWith(record[last.field])]
  }

  lemma {:induction false} ProjectKeys(record: Record, components: seq<Component>)
    requires IsComplete(record, components)
    ensures Project(record, components).Keys == set c | c in components :: c.nodeId
  {
    if components != [] {
      var before := components[..|components| - 1];
      ProjectKeys(record, before);
      assert components == before + [components[|components| - 1]];
    }
  }

  /** Each input of the group takes the value of its field; of two components for one input the later one counts. */
  ghost predicate Gives(record: Record, components: seq<Component>, candidate: Assignments) {
    && (forall c | c in components :: c.field in record)
    && candidate.Keys == (set c | c in components :: c.nodeId)
    && forall i | 0 <= i < |components| && (forall j | i < j < |components| ::
                                              components[j].nodeId != components[i].nodeId) ::
         candidate[components[i].nodeId] == PresentWith(record[components[i].field])
  }

  lemma {:induction false} ProjectGives(record: Record, components: seq<Component>, candidate: Assignments)
    ensures Gives(record, components, candidate)
       <==> IsComplete(record, components) && candidate == Project(record, components)
  {
    if IsComplete(record, components) {
      ProjectKeys(record, components);
      forall i | 0 <= i < |components|
                 && forall j | i < j < |components| :: components[j].nodeId != components[i].nodeId
        ensures components[i].nodeId in Project(record, components)
        ensures Project(record, components)[components[i].nodeId] == PresentWith(record[components[i].field])
      {
        LastGives(record, components, i);
      }
      if Gives(record, components, candidate) {
        GivenOnce(record, components, candidate, Project(record, components));
      }
    }
  }

  lemma {:induction false} LastGives(record: Record, components: seq<Component>, i: nat)
    requires IsComplete(record, components) && i < |components|
    requires forall j | i < j < |components| :: components[j].nodeId != components[i].nodeId
    ensures components[i].nodeId in Project(record, components)
    ensures Project(record, components)[components[i].nodeId] == PresentWith(record[components[i].field])
  {
    if i < |components| - 1 {
      LastGives(record, components[..|components| - 1], i);
    }
  }

  lemma {:induction false} GivenOnce(record: Record, components: seq<Component>, c: Assignments, d: Assignments)
    requires Gives(record, components, c) && Gives(record, components, d)
    ensures c == d
  {
    forall id | id in c
      ensures c[id] == d[id]
    {
      var at := LastOf(components, id);
    }
  }

  lemma {:induction false} LastOf(components: seq<Component>, id: NodeId) returns (i: nat)
    requires exists c | c in components :: c.nodeId == id
    ensures i < |components| && components[i].nodeId == id
    ensures forall j | i < j < |components| :: components[j].nodeId != id
  {
    i := |components| - 1;
    if components[i].nodeId != id {
      var before := components[..i];
      assert forall c | c in components && c.nodeId == id :: c in before;
      i := LastOf(before, id);
    }
  }

  /** `candidate` is one observed record. */
  ghost predicate FromRecord(candidate: Assignments, records: seq<Record>, components: seq<Component>) {
    exists record | record in records :: Gives(record, components, candidate)
  }

  /** Candidates are compared as the host language compares values. */
  predicate AlikeAt(x: Assignment, y: Assignment) {
    x == y || (x.PresentWith? && y.PresentWith? && HostEqual(x.value, y.value))
  }

  predicate Alike(c: Assignments, d: Assignments) {
    c.Keys == d.Keys && forall id | id in c :: AlikeAt(c[id], d[id])
  }

  predicate Among(c: Assignments, candidates: seq<Assignments>) {
    exists d | d in candidates :: Alike(d, c)
  }

  /** No two candidates are alike. */
  ghost predicate Apart(candidates: seq<Assignments>) {
    forall i, j | 0 <= i < j < |candidates| :: !Alike(candidates[i], candidates[j])
  }

  ghost predicate LikeRecord(c: Assignments, records: seq<Record>, components: seq<Component>) {
    exists d :: FromRecord(d, records, components) && Alike(d, c)
  }

  lemma {:induction false} AlikeIsEquality(a: Assignments, b: Assignments, c: Assignments)
    ensures Alike(a, a) && (Alike(a, b) ==> Alike(b, a)) && (Alike(a, b) && Alike(b, c) ==> Alike(a, c))
  {
  }

  lemma {:induction false} OneMoreRecord(records: seq<Record>, i: nat, components: seq<Component>, c: Assignments)
    requires i < |records|
    ensures FromRecord(c, records[..i + 1], components)
        <==> FromRecord(c, records[..i], components)
             || (IsComplete(records[i], components) && c == Project(records[i], components))
  {
    hide Gives;
    assert records[..i + 1] == records[..i] + [records[i]];
    assert records[i] in records[..i + 1];
    ProjectGives(records[i], components, c);
    if FromRecord(c, records[..i], components) {
      var record :| record in records[..i] && Gives(record, components, c);
      assert record in records[..i + 1];
    }
  }

  /** The first record that gives a candidate like `c`, or one past the end. */
  ghost function FirstLike(c: Assignments, records: seq<Record>, components: seq<Component>): nat {
    if records == [] || (exists d :: Gives(records[0], components, d) && Alike(d, c)) then 0
    else 1 + FirstLike(c, records[1..], components)
  }

  /** Candidates come in the order in which their kinds were first observed. */
  ghost predicate InRecordOrder(candidates: seq<Assignments>, records: seq<Record>, components: seq<Component>) {
    forall a, b | 0 <= a < b < |candidates| ::
      FirstLike(candidates[a], records, components) < FirstLike(candidates[b], records, components)
  }

  lemma {:induction false} FirstLikeIs(c: Assignments, records: seq<Record>, components: seq<Component>)
    ensures var i := FirstLike(c, records, components);
            && i <= |records|
            && (forall j, d | 0 <= j < i && Gives(records[j], components, d) :: !Alike(d, c))
            && (i < |records| ==> exists d :: Gives(records[i], components, d) && Alike(d, c))
  {
    hide Gives, Alike;
    if records != [] && FirstLike(c, records, components) > 0 {
      FirstLikeIs(c, records[1..], components);
      forall j, d | 0 <= j < FirstLike(c, records, components) && Gives(records[j], components, d)
        ensures !Alike(d, c)
      {
        assert j > 0 ==> records[1..][j - 1] == records[j];
      }
    }
  }

  lemma {:induction false} FirstLikeOfAlike(c: Assignments, d: Assignments, records: seq<Record>,
                                            components: seq<Component>)
    requires Alike(c, d)
    ensures FirstLike(c, records, components) == FirstLike(d, records, components)
  {
    hide Gives, Alike;
    if records != [] {
      FirstLikeOfAlike(c, d, records[1..], components);
      AlikeIsEquality(c, d, c);
      forall e
        ensures Alike(e, c) <==> Alike(e, d)
      {
        AlikeIsEquality(e, c, d);
        AlikeIsEquality(e, d, c);
      }
    }
  }

  lemma {:induction false} NewKindIsFirst(records: seq<Record>, i: nat, components: seq<Component>,
                                          candidates: seq<Assignments>, c: Assignments)
    requires i < |records| && Gives(records[i], components, c) && !Among(c, candidates)
    requires forall d | FromRecord(d, records[..i], components) :: Among(d, candidates)
    ensures FirstLike(c, records, components) == i
  {
    hide Gives, Alike;
    FirstLikeIs(c, records, components);
    AlikeIsEquality(c, c, c);
    var k := FirstLike(c, records, components);
    if k < i {
      var d :| Gives(records[k], components, d) && Alike(d, c);
      assert records[k] in records[..i] && FromRecord(d, records[..i], components);
      var e :| e in candidates && Alike(e, d);
      AlikeIsEquality(e, d, c);
      assert false;
    }
  }

  /** The complete records, projected to the group's inputs, one of each kind. */
  method RecordCandidates(records: seq<Record>, components: seq<Component>) returns (candidates: seq<Assignments>)
    ensures Apart(candidates) && forall c | c in candidates :: FromRecord(c, records, components)
    ensures forall c | FromRecord(c, records, components) :: Among(c, candidates)
    ensures InRecordOrder(candidates, records, components)
  {
    hide FromRecord, Project, Alike, Among, Apart, Gives, FirstLike;
    candidates := [];
    NoRecords(components);
    for i := 0 to |records|
      invariant Apart(candidates) && forall c | c in candidates :: FromRecord(c, records[..i], components)
      invariant forall c | FromRecord(c, records[..i], components) :: Among(c, candidates)
      invariant InRecordOrder(candidates, records, components)
      invariant forall c | c in candidates :: FirstLike(c, records, components) < i
    {
      forall c {
        OneMoreRecord(records, i, components, c);
      }
      if IsComplete(records[i], components) {
        var candidate := Project(records[i], components);
        if !Among(candidate, candidates) {
          ProjectGives(records[i], components, candidate);
          NewKindIsFirst(records, i, components, candidates, candidate);
          OneMoreKind(candidates, candidate);
          candidates := candidates + [candidate];
        }
      }
    }
    assert records[..|records|] == records;
  }

  lemma {:induction false} OneMoreKind(candidates: seq<Assignments>, c: Assignments)
    requires Apart(candidates) && !Among(c, candidates)
    ensures Apart(candidates + [c]) && Among(c, candidates + [c])
    ensures forall d | Among(d, candidates) :: Among(d, candidates + [c])
  {
    hide Alike;
    var more := candidates + [c];
    AlikeIsEquality(c, c, c);
    assert c in more;
    assert forall d | d in candidates :: d in more;
  }

  lemma {:induction false} NoRecords(components: seq<Component>)
    ensures Apart([])
    ensures forall c :: !FromRecord(c, [], components)
  {
  }

  function BaselineCandidate(baseline: Assignments, ids: set<NodeId>): Assignments {
    map id | id in ids :: if id in baseline then baseline[id] else Absent
  }

  function RemoveFirst(candidates: seq<Assignments>, c: Assignments): seq<Assignments> {
    if candidates == [] then [] else if Alike(candidates[0], c) then candidates[1..]
    else [candidates[0]] + RemoveFirst(candidates[1..], c)
  }

  /** When `first` occurs it takes the place of the candidate like it, at the front. */
  function Promote(candidates: seq<Assignments>, first: Assignments): seq<Assignments> {
    if Among(first, candidates) then [first] + RemoveFirst(candidates, first) else candidates
  }

  lemma {:induction false} RemoveKeeps(candidates: seq<Assignments>, c: Assignments)
    requires Apart(candidates)
    ensures Apart(RemoveFirst(candidates, c))
    ensures forall d :: d in RemoveFirst(candidates, c) <==> d in candidates && !Alike(d, c)
    ensures |RemoveFirst(candidates, c)| == if Among(c, candidates) then |candidates| - 1 else |candidates|
  {
    hide Alike;
    if candidates != [] {
      var first, rest := candidates[0], candidates[1..];
      assert forall d :: d in candidates <==> d == first || d in rest;
      if Alike(first, c) {
        forall d | d in rest
          ensures !Alike(d, c)
        {
          AlikeIsEquality(d, c, first);
          AlikeIsEquality(first, c, d);
        }
      } else {
        RemoveKeeps(rest, c);
        assert forall i | 0 <= i < |RemoveFirst(rest, c)| :: RemoveFirst(rest, c)[i] in rest;
        assert forall d | d in rest :: !Alike(first, d);
      }
    }
  }

  /** Promotion keeps the kinds and the number of candidates, none twice. */
  lemma {:induction false} PromoteKeeps(candidates: seq<Assignments>, first: Assignments)
    requires Apart(candidates)
    ensures Apart(Promote(candidates, first)) && |Promote(candidates, first)| == |candidates|
    ensures forall c | c in Promote(candidates, first) :: c in candidates || (c == first && Among(first, candidates))
    ensures forall c | Among(c, candidates) :: Among(c, Promote(candidates, first))
    ensures Among(first, candidates) ==> candidates != [] && Promote(candidates, first)[0] == first
  {
    hide Alike;
    RemoveKeeps(candidates, first);
    if Among(first, candidates) {
      var rest := RemoveFirst(candidates, first);
      forall d | d in rest ensures !Alike(first, d) { AlikeIsEquality(first, d, d); }
      forall c | Among(c, candidates)
        ensures Among(c, [first] + rest)
      {
        var d :| d in candidates && Alike(d, c);
        if Alike(d, first) {
          AlikeIsEquality(d, first, c);
          AlikeIsEquality(first, d, c);
          assert first in [first] + rest;
        } else {
          assert d in [first] + rest;
        }
      }
    }
  }

  lemma {:induction false} RemovedAt(candidates: seq<Assignments>, c: Assignments) returns (k: nat)
    requires Among(c, candidates)
    ensures k < |candidates| && RemoveFirst(candidates, c) == candidates[..k] + candidates[k + 1..]
  {
    hide Alike;
    if Alike(candidates[0], c) {
      k := 0;
    } else {
      var rest := candidates[1..];
      var d :| d in candidates && Alike(d, c);
      assert d in rest;
      var later := RemovedAt(rest, c);
      k := later + 1;
      assert candidates[..k] == [candidates[0]] + rest[..later] && candidates[k + 1..] == rest[later + 1..];
    }
  }

  /** Promotion keeps the order of the others. */
  lemma {:induction false} PromoteKeepsOrder(candidates: seq<Assignments>, first: Assignments, records: seq<Record>,
                                             components: seq<Component>)
    requires Apart(candidates) && InRecordOrder(candidates, records, components)
    ensures var out, from := Promote(candidates, first), if Among(first, candidates) then 1 else 0;
            from <= |out| && InRecordOrder(out[from..], records, components)
  {
    hide Among, FirstLike, RemoveFirst, Alike, Apart, InRecordOrder;
    if Among(first, candidates) {
      var k := RemovedAt(candidates, first);
      RestInOrder(candidates, k, records, components);
      assert Promote(candidates, first)[1..] == candidates[..k] + candidates[k + 1..];
    } else {
      assert Promote(candidates, first)[0..] == candidates;
    }
  }

  lemma {:induction false} RestInOrder(candidates: seq<Assignments>, k: nat, records: seq<Record>,
                                       components: seq<Component>)
    requires k < |candidates| && InRecordOrder(candidates, records, components)
    ensures InRecordOrder(candidates[..k] + candidates[k + 1..], records, components)
  {
    hide FirstLike;
    var rest := candidates[..k] + candidates[k + 1..];
    assert forall a | 0 <= a < |rest| :: rest[a] == candidates[if a < k then a else a + 1];
  }

  lemma {:induction false} PrefixAsObserved(ordered: seq<Assignments>, n: nat, from: nat, records: seq<Record>,
                                            components: seq<Component>)
    requires from <= n <= |ordered| && InRecordOrder(ordered[from..], records, components)
    requires forall c | FromRecord(c, records, components) :: Among(c, ordered)
    ensures AsObserved(ordered[..n], records, components, from)
  {
    hide FromRecord, FirstLike, Alike;
    var kept := ordered[..n];
    assert kept[from..] == ordered[from..][..n - from];
    forall c, d | FromRecord(c, records, components) && !Among(c, kept) && d in kept[from..]
      ensures FirstLike(d, records, components) < FirstLike(c, records, components)
    {
      var e :| e in ordered && Alike(e, c);
      var m :| 0 <= m < |ordered| && ordered[m] == e;
      assert forall j | 0 <= j < n :: kept[j] == ordered[j] && kept[j] in kept;
      var a :| 0 <= a < n - from && kept[from..][a] == d;
      assert ordered[from..][a] == d && ordered[from..][m - from] == e;
      FirstLikeOfAlike(e, c, records, components);
    }
  }

  // ---------------------------------------------------------------- the units

  /** What every unit offers: at least one candidate, each choosing for exactly its inputs. */
  ghost predicate IsUsable(u: Unit) {
    u.candidates != [] && forall c | c in u.candidates :: c.Keys == IdsOf(u)
  }

  function Observed(records: Records, g: ResourceGroup): seq<Record> {
    if g.resource in records then records[g.resource] else []
  }

  /** What the baseline gives to the inputs of a group. */
  ghost predicate IsBaseline(c: Assignments, baseline: Assignments, ids: set<NodeId>) {
    c.Keys == ids && forall id | id in ids :: c[id] == if id in baseline then baseline[id] else Absent
  }

  /**
   The unit joins one resource group into observed records. The baseline comes first if it is one of them; the others
   come in the order in which they were observed, and those that are left out come later.
   */
  ghost predicate IsRecordUnit(u: Unit, g: ResourceGroup, records: Records, baseline: Assignments, size: nat) {
    var observed, parts := Observed(records, g), g.components;
    && |u.nodeIds| == |parts| && (forall i | 0 <= i < |parts| :: u.nodeIds[i] == parts[i].nodeId)
    && Apart(u.candidates) && |u.candidates| <= size
    && (forall c | c in u.candidates :: LikeRecord(c, observed, parts))
    && (|u.candidates| < size ==> forall c | FromRecord(c, observed, parts) :: Among(c, u.candidates))
    && (forall first | IsBaseline(first, baseline, GroupIds(g)) ::
          if LikeRecord(first, observed, parts)
          then u.candidates != [] && u.candidates[0] == first && AsObserved(u.candidates, observed, parts, 1)
          else AsObserved(u.candidates, observed, parts, 0))
  }

  /** From some place on, the candidates come as observed, before all records that are left out. */
  ghost predicate AsObserved(candidates: seq<Assignments>, records: seq<Record>, components: seq<Component>,
                             from: nat) {
    && from <= |candidates| && InRecordOrder(candidates[from..], records, components)
    && forall c, d | FromRecord(c, records, components) && !Among(c, candidates) && d in candidates[from..] ::
         FirstLike(d, records, components) < FirstLike(c, records, components)
  }

  function NodeIds(cs: seq<Component>): seq<NodeId> {
    seq(|cs|, i requires 0 <= i < |cs| => cs[i].nodeId)
  }

  lemma {:induction false} NodeIdsAre(g: ResourceGroup, candidates: seq<Assignments>)
    ensures IdsOf(Unit(NodeIds(g.components), candidates)) == GroupIds(g)
  {
    assert forall i | 0 <= i < |g.components| ::
        NodeIds(g.components)[i] == g.components[i].nodeId && NodeIds(g.components)[i] in NodeIds(g.components);
  }

  method RecordUnit(g: ResourceGroup, records: Records, baseline: Assignments, size: nat)
    returns (r: Result<Unit, SolveError>)
    requires size >= 1
    ensures r.Ok? ==> IsUsable(r.value) && IsRecordUnit(r.value, g, records, baseline, size)
    ensures r.Ok? ==> IdsOf(r.value) == GroupIds(g)
    ensures r.Err? <==> forall c :: !FromRecord(c, Observed(records, g), g.components)
    ensures r.Err? ==> r.error.EmptyDomain?
  {
    hide FromRecord, Apart, Promote, GroupIds, Alike, Among, AsObserved, InRecordOrder, LikeRecord;
    ghost var observed := Observed(records, g);
    var candidates := RecordCandidates(Observed(records, g), g.components);
    var first := BaselineCandidate(baseline, GroupIds(g));
    KindsAreRecords(candidates, observed, g.components);
    if candidates == [] {
      return Err(EmptyDomain(NodeIds(g.components)));
    }
    assert candidates[0] in candidates;
    var ordered := Promote(candidates, first);
    PromoteKeeps(candidates, first);
    var kept := if |ordered| <= size then ordered else ordered[..size];
    PromoteKeepsOrder(candidates, first, observed, g.components);
    ApartPrefix(ordered, |kept|);
    PrefixAsObserved(ordered, |kept|, if Among(first, candidates) then 1 else 0, observed, g.components);
    NodeIdsAre(g, kept);
    assert forall c | IsBaseline(c, baseline, GroupIds(g)) :: c == first;
    assert LikeRecord(first, observed, g.components) <==> Among(first, candidates);
    assert Among(first, candidates) ==> kept[0] == first;
    assert forall c | FromRecord(c, observed, g.components) :: Among(c, ordered);
    assert ordered[..|kept|] == kept && (|kept| < size ==> kept == ordered);
    forall c | c in kept
      ensures LikeRecord(c, observed, g.components) && c.Keys == GroupIds(g)
    {
      assert c in ordered;
      LikeRecordKeys(c, observed, g);
    }
    r := Ok(Unit(NodeIds(g.components), kept));
  }

  /** Being like a record is being like a candidate. */
  lemma {:induction false} KindsAreRecords(candidates: seq<Assignments>, records: seq<Record>,
                                           components: seq<Component>)
    requires forall c | c in candidates :: FromRecord(c, records, components)
    requires forall c | FromRecord(c, records, components) :: Among(c, candidates)
    ensures forall c :: LikeRecord(c, records, components) <==> Among(c, candidates)
    ensures forall c | c in candidates :: LikeRecord(c, records, components)
    ensures candidates == [] <==> forall c :: !FromRecord(c, records, components)
  {
    hide FromRecord, Alike, Among, LikeRecord;
    forall c
      ensures LikeRecord(c, records, components) <==> Among(c, candidates)
    {
      KindIsRecord(candidates, records, components, c);
    }
    forall c | c in candidates ensures LikeRecord(c, records, components) {
      InAmong(candidates, c);
    }
    if candidates != [] {
      assert candidates[0] in candidates;
    } else {
      forall c ensures !FromRecord(c, records, components) { NoneAmong(c); }
    }
  }

  lemma {:induction false} KindIsRecord(candidates: seq<Assignments>, records: seq<Record>, components: seq<Component>,
                                        c: Assignments)
    requires forall d | d in candidates :: FromRecord(d, records, components)
    requires forall d | FromRecord(d, records, components) :: Among(d, candidates)
    ensures LikeRecord(c, records, components) <==> Among(c, candidates)
  {
    hide FromRecord, Alike;
    if LikeRecord(c, records, components) {
      var d :| FromRecord(d, records, components) && Alike(d, c);
      var e :| e in candidates && Alike(e, d);
      AlikeIsEquality(e, d, c);
    }
  }

  lemma {:induction false} InAmong(candidates: seq<Assignments>, c: Assignments)
    requires c in candidates
    ensures Among(c, candidates)
  {
    AlikeIsEquality(c, c, c);
  }

  lemma {:induction false} NoneAmong(c: Assignments)
    ensures !Among(c, [])
  {
  }

  lemma {:induction false} ApartPrefix(candidates: seq<Assignments>, n: nat)
    requires Apart(candidates) && n <= |candidates|
    ensures Apart(candidates[..n])
  {
  }

  lemma {:induction false} LikeRecordKeys(c: Assignments, records: seq<Record>, g: ResourceGroup)
    requires LikeRecord(c, records, g.components)
    ensures c.Keys == GroupIds(g)
  {
    var d :| FromRecord(d, records, g.components) && Alike(d, c);
    FromRecordKeys(d, records, g);
  }

  lemma {:induction false} FromRecordKeys(c: Assignments, records: seq<Record>, g: ResourceGroup)
    requires FromRecord(c, records, g.components)
    ensures c.Keys == GroupIds(g)
  {
    var record :| record in records && Gives(record, g.components, c);
  }

  function ScalarUnit(id: NodeId, domain: seq<Assignment>): Unit {
    Unit([id], seq(|domain|, i requires 0 <= i < |domain| => map[id := domain[i]]))
  }

  lemma {:induction false} ScalarUnitIs(id: NodeId, domain: seq<Assignment>)
    requires domain != []
    ensures IdsOf(ScalarUnit(id, domain)) == {id} && IsUsable(ScalarUnit(id, domain))
  {
  }

  ghost predicate Disjoint(units: seq<Unit>) {
    forall i, k | 0 <= i < k < |units| :: IdsOf(units[i]) * IdsOf(units[k]) == {}
  }

  /** A multi-component group with an input under search is joined. */
  predicate IsJoined(g: ResourceGroup, ids: set<NodeId>) {
    |g.components| > 1 && exists c | c in g.components :: c.nodeId in ids
  }

  type Domains = map<NodeId, seq<Assignment>>

  /** The joined groups: those of several components, when records are there to join them by. */
  ghost predicate Joins(g: ResourceGroup, groups: seq<ResourceGroup>, ids: set<NodeId>, records: Option<Records>) {
    records.Some? && g in groups && IsJoined(g, ids)
  }

  ghost predicate UnitOf(u: Unit, g: ResourceGroup, records: Option<Records>, baseline: Assignments, size: nat) {
    records.Some? && IsRecordUnit(u, g, records.value, baseline, size)
  }

  /** A unit is a joined group, or the plain domain of an input outside all joined groups. */
  ghost predicate IsKnownUnit(u: Unit, groups: seq<ResourceGroup>, domains: Domains, records: Option<Records>,
                              baseline: Assignments, size: nat) {
    || (exists g :: Joins(g, groups, domains.Keys, records) && UnitOf(u, g, records, baseline, size))
    || (exists id | id in domains && u == ScalarUnit(id, domains[id]) ::
          forall g | Joins(g, groups, domains.Keys, records) :: id !in GroupIds(g))
  }

  /** Every joined group has its unit, and there are no other units but plain domains. */
  ghost predicate UnitsAre(units: seq<Unit>, groups: seq<ResourceGroup>, domains: Domains, records: Option<Records>,
                           baseline: Assignments, size: nat) {
    && (forall u | u in units :: IsUsable(u) && IsKnownUnit(u, groups, domains, records, baseline, size))
    && (forall g | Joins(g, groups, domains.Keys, records) ::
          exists u | u in units :: UnitOf(u, g, records, baseline, size))
  }

  /** Some joined group has no complete record. */
  ghost predicate Unobserved(groups: seq<ResourceGroup>, ids: set<NodeId>, records: Option<Records>) {
    exists g | Joins(g, groups, ids, records) ::
      forall c :: !FromRecord(c, Observed(records.value, g), g.components)
  }

  ghost predicate UnitsCover(units: seq<Unit>, ids: set<NodeId>) {
    forall id | id in ids :: exists u | u in units :: id in IdsOf(u)
  }

  /** Inputs of `ids` that no joined group chooses for. */
  ghost predicate AreLeft(left: set<NodeId>, gs: seq<ResourceGroup>, ids: set<NodeId>) {
    forall id :: id in left <==> id in ids && forall g | g in gs && IsJoined(g, ids) :: id !in GroupIds(g)
  }

  /** What the loop over the groups has made: a unit for each joined group so far. */
  ghost predicate Joined(units: seq<Unit>, gs: seq<ResourceGroup>, ids: set<NodeId>, records: Records,
                         baseline: Assignments, size: nat) {
    && Disjoint(units)
    && (forall u | u in units ::
          IsUsable(u) && exists g | g in gs :: IsJoined(g, ids) && IsRecordUnit(u, g, records, baseline, size))
    && (forall g | g in gs && IsJoined(g, ids) :: exists u | u in units :: IsRecordUnit(u, g, records, baseline, size))
  }

  /** One unit for every group that chooses for an input under search, and the inputs left over. */
  method JoinGroups(gs: seq<ResourceGroup>, ids: set<NodeId>, records: Records, baseline: Assignments, size: nat,
                    ghost known: set<NodeId>)
    returns (r: Result<(seq<Unit>, set<NodeId>), SolveError>)
    requires size >= 1 && SeparateGroups(gs, known)
    ensures r.Ok? ==> Joined(r.value.0, gs, ids, records, baseline, size) && AreLeft(r.value.1, gs, ids)
    ensures r.Err? <==> exists g | g in gs ::
              IsJoined(g, ids) && forall c :: !FromRecord(c, Observed(records, g), g.components)
    ensures r.Err? ==> r.error.EmptyDomain?
  {
    hide IsRecordUnit, FromRecord, IdsOf, GroupIds, IsJoined, Joined, AreLeft, SeparateGroups;
    var remaining := ids;
    var units: seq<Unit> := [];
    NothingJoined(ids, records, baseline, size);
    for i := 0 to |gs|
      invariant Joined(units, gs[..i], ids, records, baseline, size) && AreLeft(remaining, gs[..i], ids)
      invariant forall g | g in gs[..i] && IsJoined(g, ids) ::
          exists c :: FromRecord(c, Observed(records, g), g.components)
    {
      assert gs[..i + 1] == gs[..i] + [gs[i]];
      StillToChoose(gs, i, known, ids, remaining);
      if |gs[i].components| <= 1 || !(exists c | c in gs[i].components :: c.nodeId in remaining) {
        PassGroup(units, remaining, gs[..i], gs[i], ids, records, baseline, size);
        continue;
      }
      var made := RecordUnit(gs[i], records, baseline, size);
      if made.Err? { return Err(made.error); }
      JoinGroup(units, made.value, gs, i, known, ids, records, baseline, size);
      LeaveGroup(remaining, gs[..i], gs[i], ids);
      units := units + [made.value];
      remaining := remaining - IdsOf(made.value);
    }
    assert gs[..|gs|] == gs;
    r := Ok((units, remaining));
  }

  lemma {:induction false} NothingJoined(ids: set<NodeId>, records: Records, baseline: Assignments, size: nat)
    ensures Joined([], [], ids, records, baseline, size) && AreLeft(ids, [], ids)
  {
  }

  /** Earlier groups have taken no input of this one. */
  lemma {:induction false} StillToChoose(gs: seq<ResourceGroup>, i: nat, known: set<NodeId>, ids: set<NodeId>,
                                         remaining: set<NodeId>)
    requires SeparateGroups(gs, known) && i < |gs| && AreLeft(remaining, gs[..i], ids)
    ensures IsJoined(gs[i], ids)
       <==> |gs[i].components| > 1 && exists c | c in gs[i].components :: c.nodeId in remaining
  {
    hide IsJoined;
    forall c | c in gs[i].components
      ensures c.nodeId in ids <==> c.nodeId in remaining
    {
      assert c.nodeId in GroupIds(gs[i]);
      forall g | g in gs[..i]
        ensures c.nodeId !in GroupIds(g)
      {
        var k :| 0 <= k < i && gs[k] == g;
        assert c.nodeId !in GroupIds(gs[k]) * GroupIds(gs[i]);
      }
    }
    JoinedIs(gs[i], ids);
  }

  lemma {:induction false} JoinedIs(g: ResourceGroup, ids: set<NodeId>)
    ensures IsJoined(g, ids) <==> |g.components| > 1 && exists c | c in g.components :: c.nodeId in ids
  {
  }

  lemma {:induction false} PassGroup(units: seq<Unit>, left: set<NodeId>, gs: seq<ResourceGroup>, g: ResourceGroup,
                                     ids: set<NodeId>, records: Records, baseline: Assignments, size: nat)
    requires Joined(units, gs, ids, records, baseline, size) && AreLeft(left, gs, ids) && !IsJoined(g, ids)
    ensures Joined(units, gs + [g], ids, records, baseline, size) && AreLeft(left, gs + [g], ids)
  {
    hide IsJoined, IsRecordUnit, GroupIds, Disjoint, IsUsable, Joined, AreLeft;
    SameJoined(gs, g, ids);
    PassJoined(units, gs, g, ids, records, baseline, size);
    PassLeft(left, gs, g, ids);
  }

  lemma {:induction false} SameJoined(gs: seq<ResourceGroup>, g: ResourceGroup, ids: set<NodeId>)
    requires !IsJoined(g, ids)
    ensures forall h :: h in gs + [g] && IsJoined(h, ids) <==> h in gs && IsJoined(h, ids)
  {
    hide IsJoined;
  }

  lemma {:induction false} PassJoined(units: seq<Unit>, gs: seq<ResourceGroup>, g: ResourceGroup, ids: set<NodeId>,
                                      records: Records, baseline: Assignments, size: nat)
    requires Joined(units, gs, ids, records, baseline, size)
    requires forall h :: h in gs + [g] && IsJoined(h, ids) <==> h in gs && IsJoined(h, ids)
    ensures Joined(units, gs + [g], ids, records, baseline, size)
  {
    hide IsJoined, IsRecordUnit, Disjoint, IsUsable;
  }

  lemma {:induction false} PassLeft(left: set<NodeId>, gs: seq<ResourceGroup>, g: ResourceGroup, ids: set<NodeId>)
    requires AreLeft(left, gs, ids)
    requires forall h :: h in gs + [g] && IsJoined(h, ids) <==> h in gs && IsJoined(h, ids)
    ensures AreLeft(left, gs + [g], ids)
  {
    hide IsJoined, GroupIds;
  }

  lemma {:induction false} LeaveGroup(left: set<NodeId>, gs: seq<ResourceGroup>, g: ResourceGroup, ids: set<NodeId>)
    requires AreLeft(left, gs, ids) && IsJoined(g, ids)
    ensures AreLeft(left - GroupIds(g), gs + [g], ids)
  {
    hide IsJoined, GroupIds;
    assert forall h :: h in gs + [g] <==> h in gs || h == g;
  }

  lemma {:induction false} JoinGroup(units: seq<Unit>, made: Unit, gs: seq<ResourceGroup>, i: nat, known: set<NodeId>,
                                     ids: set<NodeId>, records: Records, baseline: Assignments, size: nat)
    requires SeparateGroups(gs, known) && i < |gs| && IsJoined(gs[i], ids)
    requires Joined(units, gs[..i], ids, records, baseline, size)
    requires IsUsable(made) && IsRecordUnit(made, gs[i], records, baseline, size)
    ensures Joined(units + [made], gs[..i] + [gs[i]], ids, records, baseline, size)
  {
    hide IsJoined, IsRecordUnit, GroupIds, IsUsable, IdsOf, Disjoint, Joined, SeparateGroups;
    forall u | u in units
      ensures IdsOf(u) * IdsOf(made) == {}
    {
      EarlierIsApart(units, made, gs, i, known, ids, records, baseline, size, u);
    }
    JoinedIsDisjoint(units, gs[..i], ids, records, baseline, size);
    OneMoreUnit(units, made);
    MoreJoined(units, made, gs[..i], gs[i], ids, records, baseline, size);
  }

  lemma {:induction false} EarlierIsApart(units: seq<Unit>, made: Unit, gs: seq<ResourceGroup>, i: nat,
                                          known: set<NodeId>, ids: set<NodeId>, records: Records,
                                          baseline: Assignments, size: nat, u: Unit)
    requires SeparateGroups(gs, known) && i < |gs| && u in units
    requires Joined(units, gs[..i], ids, records, baseline, size) && IsRecordUnit(made, gs[i], records, baseline, size)
    ensures IdsOf(u) * IdsOf(made) == {}
  {
    hide IsJoined, IsRecordUnit, GroupIds, IsUsable, IdsOf, Disjoint;
    UnitIdsAre(made, gs[i], records, baseline, size);
    var g :| g in gs[..i] && IsJoined(g, ids) && IsRecordUnit(u, g, records, baseline, size);
    var k :| 0 <= k < i && gs[k] == g;
    UnitIdsAre(u, g, records, baseline, size);
  }

  lemma {:induction false} OneMoreUnit(units: seq<Unit>, unit: Unit)
    requires Disjoint(units) && forall u | u in units :: IdsOf(u) * IdsOf(unit) == {}
    ensures Disjoint(units + [unit])
  {
    hide IdsOf;
  }

  lemma {:induction false} MoreJoined(units: seq<Unit>, made: Unit, gs: seq<ResourceGroup>, g: ResourceGroup,
                                      ids: set<NodeId>, records: Records, baseline: Assignments, size: nat)
    requires Joined(units, gs, ids, records, baseline, size) && Disjoint(units + [made])
    requires IsUsable(made) && IsJoined(g, ids) && IsRecordUnit(made, g, records, baseline, size)
    ensures Joined(units + [made], gs + [g], ids, records, baseline, size)
  {
    hide IsJoined, IsRecordUnit, IsUsable, Disjoint;
    assert forall u :: u in units + [made] <==> u in units || u == made;
    assert forall h :: h in gs + [g] <==> h in gs || h == g;
  }

  lemma {:induction false} UnitIdsAre(u: Unit, g: ResourceGroup, records: Records, baseline: Assignments, size: nat)
    requires IsRecordUnit(u, g, records, baseline, size)
    ensures IdsOf(u) == GroupIds(g)
  {
    hide LikeRecord, FromRecord, AsObserved, Apart, Among;
    assert forall c | c in g.components :: exists i | 0 <= i < |g.components| :: g.components[i] == c
                                                                                && u.nodeIds[i] == c.nodeId;
  }

  /** The plain domains of the inputs in `left`, in whatever order. */
  method ScalarUnits(domains: Domains, left: set<NodeId>) returns (units: seq<Unit>)
    requires left <= domains.Keys && forall id | id in domains :: domains[id] != []
    ensures Disjoint(units) && UnitsCover(units, left)
    ensures forall u | u in units :: IsUsable(u) && exists id | id in left :: u == ScalarUnit(id, domains[id])
  {
    hide ScalarUnit, IdsOf, IsUsable;
    units := [];
    var rest := left;
    while rest != {}
      invariant rest <= left && Disjoint(units) && UnitsCover(units, left - rest)
      invariant forall u | u in units ::
          IsUsable(u) && exists id | id in left - rest :: u == ScalarUnit(id, domains[id])
      decreases rest
    {
      var id :| id in rest;
      var unit := ScalarUnit(id, domains[id]);
      ScalarUnitIs(id, domains[id]);
      forall u | u in units
        ensures IdsOf(u) * IdsOf(unit) == {}
      {
        var other :| other in left - rest && u == ScalarUnit(other, domains[other]);
        ScalarUnitIs(other, domains[other]);
      }
      AddUnit(units, unit, left - rest);
      assert left - (rest - {id}) <= left - rest + IdsOf(unit);
      units := units + [unit];
      rest := rest - {id};
    }
    assert left - rest == left;
  }

  /**
   Units for the given domains: disjoint, each a joined group of observed records or the domain of one input that is
   in no such group, together choosing for every input under search. It fails exactly when a joined group has not a
   single complete record.
   */
  method BuildSearchUnits(domains: Domains, generators: seq<Generator>, baseline: Assignments,
                          records: Option<Records>, size: nat)
    returns (r: Result<seq<Unit>, SolveError>)
    requires size >= 1 && DistinctInputs(generators)
    requires forall id | id in domains :: domains[id] != []
    ensures r.Ok? ==> Disjoint(r.value) && UnitsCover(r.value, domains.Keys)
    ensures r.Ok? ==> UnitsAre(r.value, GroupsOf(generators), domains, records, baseline, size)
    ensures r.Err? <==> Unobserved(GroupsOf(generators), domains.Keys, records)
    ensures r.Err? ==> r.error.EmptyDomain?
  {
    hide IsRecordUnit, FromRecord, GroupsOf, ScalarUnit, IdsOf, GroupIds, DistinctInputs, IsJoined, Joined, AreLeft,
         UnitsAre, UnitsCover, Disjoint, Joins;
    ghost var groups := GroupsOf(generators);
    var units: seq<Unit>, remaining := [], domains.Keys;
    NothingToJoin(groups, domains.Keys);
    if records.Some? {
      GroupsAreSeparate(generators);
      var joined := JoinGroups(GroupsOf(generators), domains.Keys, records.value, baseline, size,
                               GeneratorIds(generators));
      UnobservedIff(groups, domains.Keys, records.value);
      if joined.Err? { return Err(joined.error); }
      units, remaining := joined.value.0, joined.value.1;
      LeftAreUnderSearch(remaining, groups, domains.Keys);
    }
    var scalars := ScalarUnits(domains, remaining);
    TogetherAre(units, scalars, remaining, groups, domains, records, baseline, size);
    r := Ok(units + scalars);
  }

  lemma {:induction false} UnobservedIff(gs: seq<ResourceGroup>, ids: set<NodeId>, records: Records)
    ensures Unobserved(gs, ids, Some(records))
       <==> exists g | g in gs :: IsJoined(g, ids) && forall c :: !FromRecord(c, Observed(records, g), g.components)
  {
    hide IsJoined, FromRecord, Observed;
    forall g
      ensures Joins(g, gs, ids, Some(records)) <==> g in gs && IsJoined(g, ids)
    {
    }
  }

  lemma {:induction false} NothingToJoin(gs: seq<ResourceGroup>, ids: set<NodeId>)
    ensures forall g :: !Joins(g, gs, ids, None)
    ensures !Unobserved(gs, ids, None)
  {
  }

  lemma {:induction false} LeftAreUnderSearch(left: set<NodeId>, gs: seq<ResourceGroup>, ids: set<NodeId>)
    requires AreLeft(left, gs, ids)
    ensures left <= ids
  {
  }

  /** The joined groups and the plain domains of what they leave. */
  lemma {:induction false} TogetherAre(units: seq<Unit>, scalars: seq<Unit>, left: set<NodeId>,
                                       groups: seq<ResourceGroup>, domains: Domains, records: Option<Records>,
                                       baseline: Assignments, size: nat)
    requires if records.Some? then Joined(units, groups, domains.Keys, records.value, baseline, size)
                                   && AreLeft(left, groups, domains.Keys)
             else units == [] && left == domains.Keys
    requires left <= domains.Keys && Disjoint(scalars) && UnitsCover(scalars, left)
    requires forall id | id in domains :: domains[id] != []
    requires forall u | u in scalars :: IsUsable(u) && exists id | id in left :: u == ScalarUnit(id, domains[id])
    ensures Disjoint(units + scalars) && UnitsCover(units + scalars, domains.Keys)
    ensures UnitsAre(units + scalars, groups, domains, records, baseline, size)
  {
    hide IsRecordUnit, ScalarUnit, GroupIds, IdsOf, IsJoined, IsUsable, Joined, AreLeft, UnitsCover, Disjoint,
         IsKnownUnit, Joins, UnitOf;
    assert forall u :: u in units + scalars <==> u in units || u in scalars;
    if records.Some? {
      JoinedUnitsAre(units, groups, domains, records.value, baseline, size);
      JoinedAndLeft(units, scalars, left, groups, domains, records.value, baseline, size);
    } else {
      assert units + scalars == scalars;
      NothingToJoin(groups, domains.Keys);
    }
    forall u | u in scalars
      ensures IsKnownUnit(u, groups, domains, records, baseline, size)
    {
      ScalarIsKnown(u, left, groups, domains, records, baseline, size);
    }
  }

  lemma {:induction false} ScalarIsKnown(u: Unit, left: set<NodeId>, groups: seq<ResourceGroup>, domains: Domains,
                                         records: Option<Records>, baseline: Assignments, size: nat)
    requires records.Some? ==> AreLeft(left, groups, domains.Keys)
    requires left <= domains.Keys && exists id | id in left :: u == ScalarUnit(id, domains[id])
    ensures IsKnownUnit(u, groups, domains, records, baseline, size)
  {
    hide IsRecordUnit, ScalarUnit, GroupIds, IsJoined;
    var id :| id in left && u == ScalarUnit(id, domains[id]);
  }

  lemma {:induction false} JoinedUnitsAre(units: seq<Unit>, groups: seq<ResourceGroup>, domains: Domains,
                                          records: Records, baseline: Assignments, size: nat)
    requires Joined(units, groups, domains.Keys, records, baseline, size)
    ensures forall u | u in units :: IsUsable(u) && IsKnownUnit(u, groups, domains, Some(records), baseline, size)
    ensures forall g | Joins(g, groups, domains.Keys, Some(records)) ::
              exists u | u in units :: UnitOf(u, g, Some(records), baseline, size)
  {
    hide IsRecordUnit, ScalarUnit, GroupIds, IsJoined, IsUsable, Disjoint;
    forall u | u in units
      ensures IsKnownUnit(u, groups, domains, Some(records), baseline, size)
    {
      var g :| g in groups && IsJoined(g, domains.Keys) && IsRecordUnit(u, g, records, baseline, size);
      assert Joins(g, groups, domains.Keys, Some(records)) && UnitOf(u, g, Some(records), baseline, size);
    }
    forall g | Joins(g, groups, domains.Keys, Some(records))
      ensures exists u | u in units :: UnitOf(u, g, Some(records), baseline, size)
    {
      var u :| u in units && IsRecordUnit(u, g, records, baseline, size);
      assert UnitOf(u, g, Some(records), baseline, size);
    }
  }

  lemma {:induction false} JoinedAndLeft(units: seq<Unit>, scalars: seq<Unit>, left: set<NodeId>,
                                         groups: seq<ResourceGroup>, domains: Domains, records: Records,
                                         baseline: Assignments, size: nat)
    requires Joined(units, groups, domains.Keys, records, baseline, size) && AreLeft(left, groups, domains.Keys)
    requires left <= domains.Keys && Disjoint(scalars) && UnitsCover(scalars, left)
    requires forall id | id in domains :: domains[id] != []
    requires forall u | u in scalars :: IsUsable(u) && exists id | id in left :: u == ScalarUnit(id, domains[id])
    ensures Disjoint(units + scalars) && UnitsCover(units + scalars, domains.Keys)
  {
    hide IsRecordUnit, ScalarUnit, GroupIds, IdsOf, IsJoined, IsUsable, Disjoint, UnitsCover, Joined, AreLeft;
    forall u, v | u in units && v in scalars
      ensures IdsOf(u) * IdsOf(v) == {}
    {
      var id :| id in left && v == ScalarUnit(id, domains[id]);
      ScalarUnitIs(id, domains[id]);
      JoinedAvoidsLeft(units, left, groups, domains.Keys, records, baseline, size, u);
      assert forall x :: x in IdsOf(u) * IdsOf(v) ==> x == id;
    }
    assert Disjoint(units) by { JoinedIsDisjoint(units, groups, domains.Keys, records, baseline, size); }
    BothDisjoint(units, scalars);
    forall id | id in domains.Keys && id !in left
      ensures exists u | u in units :: id in IdsOf(u)
    {
      TakenIsChosen(units, left, groups, domains.Keys, records, baseline, size, id);
    }
    BothCover(units, scalars, left, domains.Keys);
  }

  lemma {:induction false} JoinedIsDisjoint(units: seq<Unit>, groups: seq<ResourceGroup>, ids: set<NodeId>,
                                            records: Records, baseline: Assignments, size: nat)
    requires Joined(units, groups, ids, records, baseline, size)
    ensures Disjoint(units)
  {
  }

  lemma {:induction false} JoinedAvoidsLeft(units: seq<Unit>, left: set<NodeId>, groups: seq<ResourceGroup>,
                                            ids: set<NodeId>, records: Records, baseline: Assignments, size: nat,
                                            u: Unit)
    requires Joined(units, groups, ids, records, baseline, size) && AreLeft(left, groups, ids) && u in units
    ensures IdsOf(u) * left == {}
  {
    hide IsRecordUnit, GroupIds, IdsOf, IsJoined, IsUsable, Disjoint;
    var g :| g in groups && IsJoined(g, ids) && IsRecordUnit(u, g, records, baseline, size);
    UnitIdsAre(u, g, records, baseline, size);
  }

  lemma {:induction false} TakenIsChosen(units: seq<Unit>, left: set<NodeId>, groups: seq<ResourceGroup>,
                                         ids: set<NodeId>, records: Records, baseline: Assignments, size: nat,
                                         id: NodeId)
    requires Joined(units, groups, ids, records, baseline, size) && AreLeft(left, groups, ids)
    requires id in ids && id !in left
    ensures exists u | u in units :: id in IdsOf(u)
  {
    hide IsRecordUnit, GroupIds, IdsOf, IsJoined, IsUsable, Disjoint;
    var g :| g in groups && IsJoined(g, ids) && id in GroupIds(g);
    var u :| u in units && IsRecordUnit(u, g, records, baseline, size);
    UnitIdsAre(u, g, records, baseline, size);
  }

  lemma {:induction false} BothDisjoint(units: seq<Unit>, others: seq<Unit>)
    requires Disjoint(units) && Disjoint(others)
    requires forall u, v | u in units && v in others :: IdsOf(u) * IdsOf(v) == {}
    ensures Disjoint(units + others)
  {
    hide IdsOf;
    var all := units + others;
    assert forall i | 0 <= i < |all| :: if i < |units| then all[i] == units[i] && all[i] in units
                                         else all[i] == others[i - |units|] && all[i] in others;
  }

  lemma {:induction false} BothCover(units: seq<Unit>, others: seq<Unit>, left: set<NodeId>, ids: set<NodeId>)
    requires UnitsCover(others, left)
    requires forall id | id in ids && id !in left :: exists u | u in units :: id in IdsOf(u)
    ensures UnitsCover(units + others, ids)
  {
    hide IdsOf;
    assert forall u :: u in units + others <==> u in units || u in others;
  }

  lemma {:induction false} AddUnit(units: seq<Unit>, unit: Unit, ids: set<NodeId>)
    requires Disjoint(units) && UnitsCover(units, ids)
    requires forall u | u in units :: IdsOf(u) * IdsOf(unit) == {}
    ensures Disjoint(units + [unit])
    ensures forall covered | covered <= ids + IdsOf(unit) :: UnitsCover(units + [unit], covered)
    ensures forall u | u in units + [unit] :: u in units || u == unit
  {
    hide IdsOf;
    forall covered, id | covered <= ids + IdsOf(unit) && id in covered
      ensures exists u | u in units + [unit] :: id in IdsOf(u)
    {
      if id in ids {
        var u :| u in units && id in IdsOf(u);
        assert u in units + [unit];
      } else {
        assert (units + [unit])[|units|] == unit;
        assert id in IdsOf(unit);
      }
    }
  }

  // ---------------------------------------------------------------- search order

  predicate TupleLess(a: seq<string>, b: seq<string>) {
    if b == [] then false
    else if a == [] then true
    else TextLess(a[0], b[0]) || (a[0] == b[0] && TupleLess(a[1..], b[1..]))
  }

  function ReferenceSum(u: Unit, counts: map<NodeId, nat>): nat {
    SumCounts(u.nodeIds, counts)
  }

  function SumCounts(ids: seq<NodeId>, counts: map<NodeId, nat>): nat {
    if ids == [] then 0 else (if ids[0] in counts then counts[ids[0]] else 0) + SumCounts(ids[1..], counts)
  }

  /** Smaller domains first, then more references, then the input ids. */
  predicate Precedes(u: Unit, v: Unit, counts: map<NodeId, nat>) {
    || |u.candidates| < |v.candidates|
    || (|u.candidates| == |v.candidates|
        && (|| ReferenceSum(u, counts) > ReferenceSum(v, counts)
            || (ReferenceSum(u, counts) == ReferenceSum(v, counts) && !TupleLess(v.nodeIds, u.nodeIds))))
  }

  /** The first difference decides, and a beginning comes first. */
  lemma {:induction false} TupleLessAt(same: seq<string>, x: string, xs: seq<string>, y: string, ys: seq<string>)
    ensures TupleLess(same, same + [y])
    ensures x != y ==> (TupleLess(same + [x] + xs, same + [y] + ys) <==> TextLess(x, y))
  {
    if same == [] {
      assert [] + [x] + xs == [x] + xs && [] + [y] + ys == [y] + ys && [] + [y] == [y];
    } else {
      var rest := same[1..];
      TextOrder(same[0], same[0], "");
      TupleLessAt(rest, x, xs, y, ys);
      assert (same + [x] + xs)[1..] == rest + [x] + xs && (same + [y] + ys)[1..] == rest + [y] + ys;
      assert (same + [y])[1..] == rest + [y];
    }
  }

  /** References add up over the inputs of a unit. */
  lemma {:induction false} ReferencesAdd(ids: seq<NodeId>, id: NodeId, counts: map<NodeId, nat>)
    ensures SumCounts([], counts) == 0
    ensures SumCounts(ids + [id], counts) == SumCounts(ids, counts) + if id in counts then counts[id] else 0
  {
    if ids == [] {
      assert [] + [id] == [id] && [id][1..] == [];
    } else {
      assert (ids + [id])[1..] == ids[1..] + [id];
      ReferencesAdd(ids[1..], id, counts);
    }
  }

  /** Fewest candidates first; of equally many, most references first; of equal ones, by name. */
  ghost predicate MostConstrainedFirst(units: seq<Unit>, counts: map<NodeId, nat>) {
    forall a, b | 0 <= a < b < |units| ::
      var u, v := units[a], units[b];
      && |u.candidates| <= |v.candidates|
      && (|u.candidates| == |v.candidates| ==> ReferenceSum(u, counts) >= ReferenceSum(v, counts))
      && (|u.candidates| == |v.candidates| && ReferenceSum(u, counts) == ReferenceSum(v, counts) ==>
            u.nodeIds == v.nodeIds || TupleLess(u.nodeIds, v.nodeIds))
  }

  lemma {:induction false} SortedIsMostConstrainedFirst(units: seq<Unit>, counts: map<NodeId, nat>)
    requires Sorted(units, (u, v) => Precedes(u, v, counts))
    ensures MostConstrainedFirst(units, counts)
  {
    hide TupleLess, SumCounts;
    forall a, b | 0 <= a < b < |units|
      ensures Precedes(units[a], units[b], counts)
      ensures !TupleLess(units[b].nodeIds, units[a].nodeIds) ==>
                units[a].nodeIds == units[b].nodeIds || TupleLess(units[a].nodeIds, units[b].nodeIds)
    {
      TupleOrder(units[a].nodeIds, units[b].nodeIds, []);
    }
  }

  function OrderUnits(units: seq<Unit>, counts: map<NodeId, nat>): seq<Unit> {
    Sort(units, (u, v) => Precedes(u, v, counts))
  }

  lemma {:induction false} TextOrder(a: string, b: string, c: string)
    ensures !(TextLess(a, b) && TextLess(b, a))
    ensures !TextLess(a, b) && !TextLess(b, a) ==> a == b
    ensures TextLess(a, b) && TextLess(b, c) ==> TextLess(a, c)
  {
    if a != [] && b != [] {
      TextOrder(a[1..], b[1..], if c == [] then [] else c[1..]);
      assert a == [a[0]] + a[1..] && b == [b[0]] + b[1..];
    }
  }

  lemma {:induction false} TupleOrder(a: seq<string>, b: seq<string>, c: seq<string>)
    ensures !(TupleLess(a, b) && TupleLess(b, a))
    ensures !TupleLess(a, b) && !TupleLess(b, a) ==> a == b
    ensures TupleLess(a, b) && TupleLess(b, c) ==> TupleLess(a, c)
  {
    if a != [] && b != [] {
      TextOrder(a[0], b[0], if c == [] then "" else c[0]);
      TupleOrder(a[1..], b[1..], if c == [] then [] else c[1..]);
      assert a == [a[0]] + a[1..] && b == [b[0]] + b[1..];
    }
  }

  lemma {:induction false} TupleChain(a: seq<string>, b: seq<string>, c: seq<string>)
    requires !TupleLess(b, a) && !TupleLess(c, b)
    ensures !TupleLess(c, a)
  {
    TupleOrder(a, b, c);
    TupleOrder(b, c, a);
    TupleOrder(c, a, b);
  }

  lemma {:induction false} PrecedesOrders(counts: map<NodeId, nat>)
    ensures TotalPreorder((u: Unit, v: Unit) => Precedes(u, v, counts))
  {
    hide TupleLess, SumCounts;
    var leq := (u: Unit, v: Unit) => Precedes(u, v, counts);
    forall u: Unit, v: Unit
      ensures leq(u, v) || leq(v, u)
    {
      TupleOrder(u.nodeIds, v.nodeIds, []);
    }
    forall u: Unit, v: Unit, w: Unit | leq(u, v) && leq(v, w)
      ensures leq(u, w)
    {
      if !TupleLess(v.nodeIds, u.nodeIds) && !TupleLess(w.nodeIds, v.nodeIds) {
        TupleChain(u.nodeIds, v.nodeIds, w.nodeIds);
      }
    }
  }

  /**
   The order in which the host language happens to iterate over the remaining inputs
   cannot influence the search: disjoint non-empty units sort to one list.
   */
  lemma {:induction false} UnitOrderIsDeterministic(units: seq<Unit>, others: seq<Unit>, counts: map<NodeId, nat>)
    requires Disjoint(units) && forall u | u in units :: u.nodeIds != []
    requires multiset(units) == multiset(others)
    ensures OrderUnits(units, counts) == OrderUnits(others, counts)
  {
    var leq := (u: Unit, v: Unit) => Precedes(u, v, counts);
    PrecedesOrders(counts);
    forall u, v | u in units && v in units && leq(u, v) && leq(v, u)
      ensures u == v
    {
      TupleOrder(u.nodeIds, v.nodeIds, []);
      var i :| 0 <= i < |units| && units[i] == u;
      var j :| 0 <= j < |units| && units[j] == v;
      assert u.nodeIds[0] in IdsOf(u) * IdsOf(v);
    }
    SortIgnoresInputOrder(units, others, leq);
  }

  // ---------------------------------------------------------------- the whole solver

  function FieldMap(cs: seq<Component>): map<string, NodeId> {
    if cs == [] then map[] else FieldMap(cs[..|cs| - 1])[cs[|cs| - 1].field := cs[|cs| - 1].nodeId]
  }

  function MatchGroups(gs: seq<ResourceGroup>, records: Option<Records>): seq<Group> {
    if records.None? || gs == [] then []
    else [Group(FieldMap(gs[0].components), Observed(records.value, gs[0]))] + MatchGroups(gs[1..], records)
  }

  /** The inputs that stand for the fields of a resource hold, together, what one observed record says. */
  ghost predicate OneRecord(generators: seq<Generator>, resource: string, record: Record, a: Assignments) {
    forall n, f | StandsFor(generators, n, resource, f) ::
      n in a && a[n].PresentWith? && HostEqual(Field(record, f), a[n].value)
  }

  ghost predicate ResourceObserved(generators: seq<Generator>, resource: string, records: Records, a: Assignments) {
    resource in records && exists record | record in records[resource] :: OneRecord(generators, resource, record, a)
  }

  /** So it is for every resource that some input stands for. */
  ghost predicate ObservedTogether(generators: seq<Generator>, records: Records, a: Assignments) {
    forall n, resource, f | StandsFor(generators, n, resource, f) :: ResourceObserved(generators, resource, records, a)
  }

  lemma {:induction false} FieldMapIs(cs: seq<Component>)
    requires DistinctFields(cs)
    ensures forall f :: f in FieldMap(cs) <==> exists c | c in cs :: c.field == f
    ensures forall c | c in cs :: FieldMap(cs)[c.field] == c.nodeId
  {
    if cs != [] {
      var before, last := cs[..|cs| - 1], cs[|cs| - 1];
      FieldMapIs(before);
      assert forall c :: c in cs <==> c in before || c == last;
    }
  }

  lemma {:induction false} MatchGroupsAre(gs: seq<ResourceGroup>, records: Records)
    ensures |MatchGroups(gs, Some(records))| == |gs|
    ensures forall i | 0 <= i < |gs| ::
              MatchGroups(gs, Some(records))[i] == Group(FieldMap(gs[i].components), Observed(records, gs[i]))
  {
    if gs != [] {
      MatchGroupsAre(gs[1..], records);
    }
  }

  lemma {:induction false} GroupMatchesIff(g: ResourceGroup, generators: seq<Generator>, records: Records,
                                           a: Assignments)
    requires Tells(g, generators)
    ensures GroupMatches(Group(FieldMap(g.components), Observed(records, g)), a)
       <==> ResourceObserved(generators, g.resource, records, a)
  {
    hide StandsFor, FieldMap, ResourceMet, FieldMet, HostEqual, Field;
    var m := FieldMap(g.components);
    FieldMapIs(g.components);
    assert forall n, f :: StandsFor(generators, n, g.resource, f) <==> f in m && m[f] == n;
    forall record
      ensures OneRecord(generators, g.resource, record, a)
         <==> forall f | f in m :: m[f] in a && a[m[f]].PresentWith? && HostEqual(Field(record, f), a[m[f]].value)
    {
      if OneRecord(generators, g.resource, record, a) {
        assert forall f | f in m :: StandsFor(generators, m[f], g.resource, f);
      }
    }
  }

  /** The records of all groups match exactly when every resource is given by one record. */
  lemma {:induction false} RecordsMatchIff(generators: seq<Generator>, records: Records, a: Assignments)
    ensures RecordsMatch(MatchGroups(GroupsOf(generators), Some(records)), a)
       <==> ObservedTogether(generators, records, a)
  {
    hide GroupsOf, MatchGroups, GroupMatches, Tells, StandsFor, ResourceObserved, ResourceMet, FieldMap, Observed;
    var gs := GroupsOf(generators);
    GroupsTellAll(generators);
    MatchGroupsAre(gs, records);
    var ms := MatchGroups(gs, Some(records));
    forall i | 0 <= i < |gs|
      ensures GroupMatches(ms[i], a) <==> ResourceObserved(generators, gs[i].resource, records, a)
    {
      GroupMatchesIff(gs[i], generators, records, a);
    }
    if RecordsMatch(ms, a) {
      forall n, resource, f | StandsFor(generators, n, resource, f)
        ensures ResourceObserved(generators, resource, records, a)
      {
        var i := GroupOf(gs, generators, n, resource, f);
        assert ms[i] in ms;
      }
    } else {
      var g :| g in ms && !GroupMatches(g, a);
      var i :| 0 <= i < |ms| && ms[i] == g;
      GroupStandsFor(gs[i], generators);
    }
  }

  lemma {:induction false} GroupOf(gs: seq<ResourceGroup>, generators: seq<Generator>, n: NodeId, resource: string,
                                   f: string) returns (i: nat)
    requires TellAll(gs, generators) && StandsFor(generators, n, resource, f)
    ensures i < |gs| && gs[i].resource == resource
  {
    hide Tells, StandsFor, ResourceMet, FieldMet;
    MetStands(generators, resource, f);
    var g :| g in gs && g.resource == resource;
    i :| 0 <= i < |gs| && gs[i] == g;
  }

  lemma {:induction false} GroupStandsFor(g: ResourceGroup, generators: seq<Generator>)
    requires Tells(g, generators)
    ensures exists n, f :: StandsFor(generators, n, g.resource, f)
  {
    hide StandsFor, ResourceMet, FieldMet;
    var c := g.components[0];
    assert Component(c.field, c.nodeId) in g.components;
  }

  lemma {:induction false} UnitsAreWellFormed(pb: Problem, rank: map<NodeId, nat>)
    requires Forest(pb.nodes, rank) && Disjoint(pb.units)
    requires forall u | u in pb.units :: IsUsable(u) && IdsOf(u) <= pb.nodes.Keys
    ensures WellFormed(pb, rank)
  {
    forall id | id in UnitIds(pb.units, |pb.units|)
      ensures id in pb.nodes
    {
      var i :| 0 <= i < |pb.units| && id in pb.units[i].nodeIds;
      assert id in IdsOf(pb.units[i]);
    }
  }

  lemma {:induction false} DisjointRearranged(units: seq<Unit>, others: seq<Unit>)
    requires multiset(units) == multiset(others) && Disjoint(units)
    requires forall u | u in units :: u.nodeIds != []
    ensures Disjoint(others)
  {
    SameMembers(units, others);
    forall i, k | 0 <= i < k < |others|
      ensures IdsOf(others[i]) * IdsOf(others[k]) == {}
    {
      var u, v := others[i], others[k];
      assert u in units && v in units;
      var a :| 0 <= a < |units| && units[a] == u;
      var b :| 0 <= b < |units| && units[b] == v;
      if a == b {
        assert others[..k] + others[k..] == others;
        assert u in multiset(others[..k]) by { assert others[..k][i] == u; }
        assert u in multiset(others[k..]) by { assert others[k..][0] == u; }
        assert multiset(others)[u] >= 2;
        SingleOccurrence(units, a);
        assert false;
      }
      assert IdsOf(u) * IdsOf(v) == IdsOf(v) * IdsOf(u);
    }
  }

  lemma {:induction false} SingleOccurrence(units: seq<Unit>, a: nat)
    requires Disjoint(units) && a < |units| && units[a].nodeIds != []
    ensures multiset(units)[units[a]] == 1
  {
    var u := units[a];
    assert units == units[..a] + [u] + units[a + 1..];
    assert u.nodeIds[0] in IdsOf(u) * IdsOf(u);
    assert u !in units[..a] && u !in units[a + 1..];
  }

  /**
   From candidate domains to overrides. Success hands back what the lexicographically
   first coherent, observed and satisfying joint candidate yields, over units in search order. That no input read by
   value has children is what validating the constraints establishes first (constraint_solver.py:85).
   */
  method SolveInputOverrides(domains: Domains, generators: seq<Generator>, baseline: Assignments,
                             records: Option<Records>, counts: map<NodeId, nat>, size: nat,
                             nodes: Nodes, constraints: seq<BoolExpr>, re: Regex, maxStates: nat,
                             ghost rank: map<NodeId, nat>)
    returns (r: Result<Assignments, SolveError>, units: seq<Unit>)
    requires size >= 1 && DistinctInputs(generators)
    requires forall id | id in domains :: domains[id] != []
    requires Forest(nodes, rank) && domains.Keys + GeneratorIds(generators) <= nodes.Keys
    requires forall c, n | c in ReadRefsOf(constraints) && n in nodes :: ParentOf(n, nodes) != Some(c)
    ensures maxStates < 1 <==> r == Err(InvalidLimit)
    ensures maxStates >= 1 ==>
              (r.Err? && r.error.EmptyDomain? <==> Unobserved(GroupsOf(generators), domains.Keys, records))
    ensures maxStates >= 1 && !(r.Err? && r.error.EmptyDomain?) ==>
              && UnitsCover(units, domains.Keys) && Disjoint(units) && MostConstrainedFirst(units, counts)
              && UnitsAre(units, GroupsOf(generators), domains, records, baseline, size)
    ensures r.Ok? && records.Some? ==> ObservedTogether(generators, records.value, baseline + r.value)
    ensures var pb := Problem(units, nodes, baseline, constraints,
                              MatchGroups(GroupsOf(generators), records), re, maxStates);
            (maxStates >= 1 && !(r.Err? && r.error.EmptyDomain?)) ==>
              && WellFormed(pb, rank)
              && var leaves := SearchLeaves(pb, rank);
                 match r
                 case Ok(overrides) => IsFirst(pb, rank, map[], 0, Some(overrides))
                 case Err(Unsatisfiable) => IsFirst(pb, rank, map[], 0, None)
                 case Err(Exhausted) => |leaves| > maxStates && FirstIndex(pb, rank, leaves) >= maxStates
                 case _ => false
  {
    hide GroupsOf, MatchGroups, Disjoint, IsUsable, UnitsAre, OrderUnits, WellFormed, MostConstrainedFirst, Unobserved,
         UnitsCover, Forest, IsFirst, FirstIndex, Prunable, SearchLeaves, ObservedTogether;
    units := [];
    if maxStates < 1 {
      return Err(InvalidLimit), [];
    }
    var built := BuildSearchUnits(domains, generators, baseline, records, size);
    if built.Err? {
      return Err(built.error), [];
    }
    var ordered := OrderUnits(built.value, counts);
    units := ordered;
    OrderedAreFit(built.value, ordered, generators, domains, records, baseline, size, counts, nodes);
    var pb := Problem(ordered, nodes, baseline, constraints, MatchGroups(GroupsOf(generators), records), re, maxStates);
    UnitsAreWellFormed(pb, rank);
    ScalarReadsArePrunable(pb, rank);
    r := Solve(pb, rank);
    if r.Ok? && records.Some? {
      SolvedTogether(pb, rank, generators, records.value, r.value);
    }
  }

  /** What the solver hands back holds one observed record for every resource. */
  lemma {:induction false} SolvedTogether(pb: Problem, rank: map<NodeId, nat>, generators: seq<Generator>,
                                          records: Records, overrides: Assignments)
    requires WellFormed(pb, rank) && IsFirst(pb, rank, map[], 0, Some(overrides))
    requires pb.groups == MatchGroups(GroupsOf(generators), Some(records))
    ensures ObservedTogether(generators, records, pb.baseline + overrides)
  {
    hide Forest, RecordsMatch, ObservedTogether, Conflicting, FullAssignments, FullOverrides, EvalSet,
         MatchGroups, GroupsOf, IsChoice, LexLess;
    var choice :| IsChoice(pb, 0, choice) && Yields(pb, rank, map[], 0, choice) == Some(overrides);
    var sel := Joint(pb, map[], 0, choice);
    var full := FullAssignments(sel, pb.baseline, pb.nodes, rank);
    RecordsMatchIff(generators, records, full);
    ValuesAreSent(sel, pb.baseline, pb.nodes, rank);
    SentTogether(generators, records, full, pb.baseline + overrides);
  }

  lemma {:induction false} SentTogether(generators: seq<Generator>, records: Records, full: Assignments,
                                        sent: Assignments)
    requires ObservedTogether(generators, records, full)
    requires forall id | id in full && full[id].PresentWith? :: id in sent && sent[id] == full[id]
    ensures ObservedTogether(generators, records, sent)
  {
    hide StandsFor, HostEqual, Field;
    forall n, resource, f | StandsFor(generators, n, resource, f)
      ensures ResourceObserved(generators, resource, records, sent)
    {
      var record :| record in records[resource] && OneRecord(generators, resource, record, full);
      assert OneRecord(generators, resource, record, sent);
    }
  }

  lemma {:induction false} OrderedAreFit(units: seq<Unit>, ordered: seq<Unit>, generators: seq<Generator>,
                                         domains: Domains, records: Option<Records>, baseline: Assignments, size: nat,
                                         counts: map<NodeId, nat>, nodes: Nodes)
    requires ordered == OrderUnits(units, counts) && DistinctInputs(generators)
    requires Disjoint(units) && UnitsCover(units, domains.Keys)
    requires forall id | id in domains :: domains[id] != []
    requires UnitsAre(units, GroupsOf(generators), domains, records, baseline, size)
    requires domains.Keys + GeneratorIds(generators) <= nodes.Keys
    ensures Disjoint(ordered) && UnitsCover(ordered, domains.Keys) && MostConstrainedFirst(ordered, counts)
    ensures UnitsAre(ordered, GroupsOf(generators), domains, records, baseline, size)
    ensures forall u | u in ordered :: IsUsable(u) && IdsOf(u) <= nodes.Keys
  {
    hide Disjoint, IsUsable, GroupsOf, Precedes, DistinctInputs, ScalarUnit, Sort, Joins, UnitOf, MostConstrainedFirst,
         IsKnownUnit;
    PrecedesOrders(counts);
    SortSorts(units, (u, v) => Precedes(u, v, counts));
    SortedIsMostConstrainedFirst(ordered, counts);
    SameMembers(units, ordered);
    forall u | u in units
      ensures IdsOf(u) <= nodes.Keys && u.nodeIds != []
    {
      KnownUnitIds(u, generators, domains, records, baseline, size);
    }
    DisjointRearranged(units, ordered);
  }

  lemma {:induction false} KnownUnitIds(u: Unit, generators: seq<Generator>, domains: Domains, records: Option<Records>,
                                        baseline: Assignments, size: nat)
    requires DistinctInputs(generators) && forall id | id in domains :: domains[id] != []
    requires IsKnownUnit(u, GroupsOf(generators), domains, records, baseline, size)
    ensures IdsOf(u) <= domains.Keys + GeneratorIds(generators) && u.nodeIds != []
  {
    hide GroupsOf, DistinctInputs, ScalarUnit, IsRecordUnit, IsJoined;
    GroupsAreSeparate(generators);
    if g :| Joins(g, GroupsOf(generators), domains.Keys, records) && UnitOf(u, g, records, baseline, size) {
      UnitIdsAre(u, g, records.value, baseline, size);
      assert IdsOf(u) <= GeneratorIds(generators);
      JoinedIs(g, domains.Keys);
      assert g.components[0].nodeId in GroupIds(g);
    } else {
      var id :| id in domains && u == ScalarUnit(id, domains[id]);
      ScalarUnitIs(id, domains[id]);
      assert id in IdsOf(u);
    }
  }
}
