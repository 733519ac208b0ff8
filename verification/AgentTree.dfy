/**
 Slots, phases and cancellation of one Agent tree (restscope/harness/agent_control.py). Every method is one
 lock-protected step, so what they all keep holds under every interleaving.
 */
module AgentTree {
  import opened Wrappers
  import opened Indexes
  import opened AgentProfiles

  datatype Phase = Queued | Running | Completed | Failed | Cancelled

  datatype Record = Record(profile: string, parent: Option<string>, depth: nat, phase: Phase, cancelRequested: bool,
                           collected: bool, version: nat)

  type Records = map<string, Record>

  datatype TreeError = RootExists | OwnerClosed | NotAuthorised | DepthExceeded | CapacityExceeded | SubmissionFailed
    | NotDirectChild

  datatype CancelStatus = AlreadyTerminal | CancellationRequested

  predicate Terminal(p: Phase) {
    p in {Completed, Failed, Cancelled}
  }

  /** No longer waiting or running. */
  ghost predicate HasEnded(p: Phase) {
    p != Queued && p != Running
  }

  function PhaseVersion(p: Phase): nat {
    match p case Queued => 0 case Running => 1 case _ => 2
  }

  /** A child as it is submitted. */
  function Started(profile: string, owner: string, depth: nat): Record {
    Record(profile, Some(owner), depth, Queued, false, false, 0)
  }

  function Uncollected(rs: Records): set<string> {
    set id | id in rs && !rs[id].collected
  }

  // ---------------------------------------------------------------- what every step keeps

  /** The root: it takes a slot for ever. */
  ghost predicate RootRecord(r: Record) {
    r.parent.None? ==> r.depth == 0 && r.phase == Running && r.version == 0 && !r.collected
  }

  /** A child hangs below its owner, and its version says how far it has come. */
  ghost predicate ChildRecord(rs: Records, r: Record) {
    r.parent.Some? ==>
      && r.parent.value in rs && r.depth == rs[r.parent.value].depth + 1
      && r.version == PhaseVersion(r.phase)
      && (r.collected ==> Terminal(r.phase))
  }

  /** Some chain of authorised Profiles leads from the root's Profile to this one. */
  ghost predicate Authorised(g: Registry, r: Record) {
    exists p :: IsPath(g, p) && |p| == r.depth + 1 && p[|p| - 1] == r.profile
  }

  ghost predicate Placed(g: Registry, rs: Records, id: string)
    requires id in rs
  {
    RootRecord(rs[id]) && ChildRecord(rs, rs[id]) && Authorised(g, rs[id])
  }

  ghost predicate Forest(g: Registry, rs: Records) {
    forall id {:trigger Placed(g, rs, id)} | id in rs :: Placed(g, rs, id)
  }

  /** A record keeps its place, only moves forward, and never changes again once collected. */
  ghost predicate Forward(before: Record, after: Record) {
    && after.profile == before.profile && after.parent == before.parent && after.depth == before.depth
    && before.version <= after.version
    && (before.cancelRequested ==> after.cancelRequested)
    && (Terminal(before.phase) ==> after.phase == before.phase)
    && (before.collected ==> after == before)
  }

  ghost predicate Advances(before: Records, after: Records) {
    forall id | id in before :: id in after && Forward(before[id], after[id])
  }

  lemma {:induction false} AdvancesTransitive(a: Records, b: Records, c: Records)
    requires Advances(a, b) && Advances(b, c)
    ensures Advances(a, c)
  {
    forall id | id in a
      ensures id in c && Forward(a[id], c[id])
    {
      assert id in b && Forward(a[id], b[id]) && Forward(b[id], c[id]);
    }
  }

  /** Each state follows from the one before by some step. */
  ghost predicate Run(states: seq<Records>) {
    forall k | 0 <= k < |states| - 1 :: Advances(states[k], states[k + 1])
  }

  lemma {:induction false} AdvancesAlong(states: seq<Records>, i: nat, j: nat)
    requires Run(states) && i <= j < |states|
    ensures Advances(states[i], states[j])
    decreases j
  {
    hide Advances;
    if i == j {
      AdvancesItself(states[i]);
    } else {
      AdvancesAlong(states, i, j - 1);
      assert Advances(states[j - 1], states[j - 1 + 1]);
      AdvancesTransitive(states[i], states[j - 1], states[j]);
    }
  }

  ghost predicate Collects(states: seq<Records>, id: string, k: nat)
    requires k < |states| - 1
  {
    id in states[k] && !states[k][id].collected && id in states[k + 1] && states[k + 1][id].collected
  }

  /** Over any interleaving a record is collected at most once, and nothing about it changes from then on. */
  lemma {:induction false} CollectedOnce(states: seq<Records>, id: string, k: nat, later: nat)
    requires Run(states) && k < later < |states| && Collects(states, id, k)
    ensures id in states[later] && states[later][id] == states[k + 1][id]
    ensures later < |states| - 1 ==> !Collects(states, id, later)
  {
    hide Run;
    AdvancesAlong(states, k + 1, later);
  }

  // ---------------------------------------------------------------- how Agents close

  /**
   A child that has ended was closed first, and closing it flagged its open children. `late` are children started by
   an Agent that was closed already, which no Agent does.
   */
  ghost predicate Disciplined(rs: Records, closed: set<string>, late: set<string>) {
    && closed <= rs.Keys
    && (forall id | id in rs && Terminal(rs[id].phase) :: id in closed)
    && (forall id | id in rs && rs[id].parent.Some? && rs[id].parent.value in closed && !rs[id].collected
         && id !in late ::
          rs[id].cancelRequested)
  }

  /** Kept by whatever ends no Agent, closes none and starts none. */
  lemma {:induction false} DisciplineKept(rs: Records, after: Records, closed: set<string>, late: set<string>)
    requires Disciplined(rs, closed, late) && Advances(rs, after) && after.Keys == rs.Keys
    requires forall id | id in rs && Terminal(after[id].phase) :: Terminal(rs[id].phase)
    ensures Disciplined(after, closed, late)
  {
    assert forall id | id in after :: Forward(rs[id], after[id]);
  }

  // ---------------------------------------------------------------- descendants

  /** Reached from the owner through records none of which is collected. */
  ghost predicate OpenBelow(rs: Records, owner: string, id: string)
    decreases if id in rs then rs[id].depth else 0
  {
    && id in rs && !rs[id].collected && rs[id].parent.Some?
    && (rs[id].parent.value == owner
        || (rs[id].parent.value in rs && rs[rs[id].parent.value].depth < rs[id].depth
            && OpenBelow(rs, owner, rs[id].parent.value)))
  }

  ghost predicate Below(rs: Records, owner: string, id: string)
    decreases if id in rs then rs[id].depth else 0
  {
    && id in rs && rs[id].parent.Some?
    && (rs[id].parent.value == owner
        || (rs[id].parent.value in rs && rs[rs[id].parent.value].depth < rs[id].depth
            && Below(rs, owner, rs[id].parent.value)))
  }

  /** Some collected record lies between the owner and this descendant. */
  ghost predicate CutOff(rs: Records, owner: string, id: string)
    decreases if id in rs then rs[id].depth else 0
  {
    && id in rs && rs[id].parent.Some? && rs[id].parent.value != owner
    && rs[id].parent.value in rs && rs[rs[id].parent.value].depth < rs[id].depth
    && (rs[rs[id].parent.value].collected || CutOff(rs, owner, rs[id].parent.value))
  }

  /** The search misses an uncollected descendant exactly when a collected Agent stands in between. */
  lemma {:induction false} MissedDescendants(rs: Records, owner: string, id: string)
    requires Below(rs, owner, id) && !rs[id].collected
    ensures OpenBelow(rs, owner, id) <==> !CutOff(rs, owner, id)
    decreases rs[id].depth
  {
    var p := rs[id].parent.value;
    if p != owner && !rs[p].collected {
      MissedDescendants(rs, owner, p);
    }
  }

  // ---------------------------------------------------------------- collecting

  /** Every named terminal record is collected; nothing else changes. */
  function AfterCollecting(rs: Records, ids: seq<string>): Records {
    map id | id in rs :: if id in ids && Terminal(rs[id].phase) then rs[id].(collected := true) else rs[id]
  }

  lemma {:induction false} CollectingIs(rs: Records, ids: seq<string>)
    ensures AfterCollecting(rs, ids).Keys == rs.Keys
    ensures forall id | id in rs ::
              AfterCollecting(rs, ids)[id] == if id in ids && HasEnded(rs[id].phase) then rs[id].(collected := true)
                                              else rs[id]
  {
  }

  lemma {:induction false} CollectingNone(rs: Records)
    ensures AfterCollecting(rs, []) == rs
  {
  }

  lemma {:induction false} CollectingNext(rs: Records, ids: seq<string>, i: nat)
    requires i < |ids| && ids[i] in rs && rs[ids[i]].parent.Some?
    ensures ids[i] in AfterCollecting(rs, ids[..i]) && AfterCollecting(rs, ids[..i])[ids[i]].parent.Some?
    ensures AfterCollecting(AfterCollecting(rs, ids[..i]), [ids[i]]) == AfterCollecting(rs, ids[..i + 1])
  {
    assert ids[..i + 1] == ids[..i] + [ids[i]];
  }

  // ---------------------------------------------------------------- the control object

  class AgentTreeControl {
    const maxOpen: nat
    /** The validated Profile registry the Harness takes every grant from. */
    ghost const registry: Registry
    var records: Records
    var open: nat
    /** Agents that have been closed, and children that closed Agents started all the same. */
    ghost var closed: set<string>
    ghost var late: set<string>

    ghost predicate Valid()
      reads this
    {
      && 1 <= maxOpen && open == |Uncollected(records)| && open <= maxOpen
      && Forest(registry, records) && Disciplined(records, closed, late)
    }

    constructor (maxOpen: nat, ghost registry: Registry)
      requires maxOpen >= 1
      ensures Valid() && records == map[] && closed == {}
      ensures late == {} && this.maxOpen == maxOpen && this.registry == registry
    {
      this.maxOpen := maxOpen;
      this.registry := registry;
      records, open := map[], 0;
      closed, late := {}, {};
    }

    method RegisterRoot(id: string, profile: string) returns (r: Result<(), TreeError>)
      requires Valid() && profile in registry
      modifies this`records, this`open
      ensures Valid()
      ensures if old(records) == map[]
              then r.Ok? && records == map[id := Record(profile, None, 0, Running, false, false, 0)] && open == 1
              else r == Err(RootExists) && records == old(records) && open == old(open)
    {
      if records != map[] { return Err(RootExists); }
      var root := Record(profile, None, 0, Running, false, false, 0);
      records, open := map[id := root], 1;
      assert Uncollected(records) == {id};
      assert IsPath(registry, [profile]);
      return Ok(());
    }

    /**
     `sessionId` is fresh; `submitted` says whether the executor took the work. A failed submission leaves no trace,
     and with a validated registry the depth refusal cannot happen.
     */
    method StartChild(owner: string, allowed: seq<string>, profile: string, sessionId: string, submitted: bool)
      returns (r: Result<string, TreeError>)
      requires Valid() && sessionId !in records
      requires owner in records ==> records[owner].profile in registry && allowed == registry[records[owner].profile]
      requires ChildrenKnown(registry)
      modifies this`records, this`open, this`late
      ensures Valid() && Advances(old(records), records)
      ensures late == if r.Ok? && owner in closed then old(late) + {sessionId} else old(late)
      ensures match r
              case Ok(id) =>
                && id == sessionId && owner in old(records) && profile in allowed && old(open) < maxOpen && submitted
                && records == old(records)[id := Started(profile, owner, old(records)[owner].depth + 1)]
                && open == old(open) + 1
              case Err(e) =>
                && records == old(records) && open == old(open)
                && e in {OwnerClosed, NotAuthorised, DepthExceeded, CapacityExceeded, SubmissionFailed}
                && (e == OwnerClosed <==> owner !in records)
                && (e == NotAuthorised <==> owner in records && profile !in allowed)
                && (e == DepthExceeded <==> owner in records && profile in allowed && records[owner].depth + 1 > 3)
                && (e == CapacityExceeded
                    <==> owner in records && profile in allowed && records[owner].depth + 1 <= 3 && open == maxOpen)
                && (e == SubmissionFailed
                    <==> owner in records && profile in allowed && records[owner].depth + 1 <= 3 && open < maxOpen)
                && (e == SubmissionFailed ==> !submitted)
                && (Shallow(registry) ==> e != DepthExceeded)
    {
      hide Uncollected, Shallow, IsPath, ChildrenKnown, Forest, Authorised, Advances, Disciplined;
      AdvancesItself(records);
      if owner !in records { return Err(OwnerClosed); }
      if profile !in allowed { return Err(NotAuthorised); }
      var depth := records[owner].depth + 1;
      Admitted(registry, records, owner, profile, sessionId);
      if depth > 3 { return Err(DepthExceeded); }
      if open >= maxOpen { return Err(CapacityExceeded); }
      var record := Started(profile, owner, depth);
      ghost var before := records;
      records := records[sessionId := record];
      open := open + 1;
      if !submitted {
        records := records - {sessionId};
        open := open - 1;
        assert records == before;
        return Err(SubmissionFailed);
      }
      StartedDiscipline(before, closed, late, owner, sessionId, record);
      if owner in closed { late := late + {sessionId}; }
      return Ok(sessionId);
    }

    /** A submitted child starts to run. */
    method Begin(id: string)
      requires Valid() && id in records && records[id].phase == Queued
      modifies this`records
      ensures Valid() && Advances(old(records), records)
      ensures records == old(records)[id := old(records)[id].(phase := Running, version := 1)]
    {
      hide Forest, Uncollected, Advances, Disciplined;
      var record := records[id];
      ghost var before := records;
      Moved(registry, records, id, Running);
      records := records[id := record.(phase := Running, version := record.version + 1)];
      DisciplineKept(before, records, closed, late);
    }

    /** A running child ends, once its Agent has been closed; when building the Agent failed there is none to close. */
    method Finish(id: string, phase: Phase)
      requires Valid() && id in records && records[id].phase == Running && records[id].parent.Some? && HasEnded(phase)
      requires id in closed || forall child | child in records :: records[child].parent != Some(id)
      modifies this`records, this`closed
      ensures Valid() && Advances(old(records), records) && closed == old(closed) + {id}
      ensures records == old(records)[id := old(records)[id].(phase := phase, version := 2)]
    {
      hide Forest, Uncollected, Advances, Disciplined;
      var record := records[id];
      ghost var before := records;
      Moved(registry, records, id, phase);
      records := records[id := record.(phase := phase, version := record.version + 1)];
      FinishedDiscipline(before, closed, late, id, records[id]);
      closed := closed + {id};
    }

    /** The Agent of a running child is closed: its own flag and those of its open descendants are set. */
    method CloseAgent(id: string)
      requires Valid() && id in records && records[id].phase == Running && records[id].parent.Some?
      modifies this`records, this`closed
      ensures Valid() && Advances(old(records), records)
      ensures closed == old(closed) + {id} && records.Keys == old(records.Keys)
      ensures forall k | k in records ::
          records[k] == if k == id || OpenBelow(old(records), id, k) then old(records)[k].(cancelRequested := true)
                        else old(records)[k]
    {
      hide OpenBelow, Forest, Uncollected, Advances, Disciplined, Flag;
      ghost var start := records;
      NotCollected(registry, records, id);
      Flagged(registry, records, {id});
      FlagIs(records, {id});
      records := Flag(records, {id});
      DisciplineKept(start, records, closed, late);
      ghost var before := records;
      CloseDescendants(id);
      OpenBelowSame(start, before, id);
      ClosedDiscipline(registry, before, records, closed, late, id);
      AdvancesTransitive(start, before, records);
      closed := closed + {id};
    }

    predicate IsOpenChild(owner: string, id: string)
      reads this
    {
      id in records && records[id].parent == Some(owner) && !records[id].collected
    }

    /** The first half of waiting: remember the versions of open direct children. */
    method BeginWait(owner: string, ids: seq<string>) returns (r: Result<map<string, nat>, TreeError>)
      ensures match r
              case Ok(versions) => forall id | id in ids ::
                  && id in records && records[id].parent == Some(owner) && !records[id].collected
                  && id in versions && versions[id] == records[id].version
              case Err(e) => e == NotDirectChild && exists id | id in ids ::
                  id in records ==> records[id].parent != Some(owner) || records[id].collected
    {
      if exists id | id in ids :: !IsOpenChild(owner, id) { return Err(NotDirectChild); }
      return Ok(map id | id in ids :: records[id].version);
    }

    /**
     The second half, any number of steps later: report, then collect each terminal child once, however often it is
     named and whoever else collected it meanwhile.
     */
    method EndWait(ids: seq<string>, versions: map<string, nat>) returns (timedOut: bool, phases: seq<Phase>)
      requires Valid() && forall id | id in ids :: id in records && records[id].parent.Some? && id in versions
      modifies this`records, this`open
      ensures Valid() && Advances(old(records), records)
      ensures timedOut <==> forall id | id in ids ::
                  !HasEnded(old(records)[id].phase) && old(records)[id].version == versions[id]
      ensures |phases| == |ids| && forall i | 0 <= i < |ids| :: phases[i] == old(records)[ids[i]].phase
      ensures open <= old(open) && records.Keys == old(records).Keys
      ensures forall id | id in records ::
          records[id] == if id in ids && HasEnded(old(records)[id].phase) then old(records)[id].(collected := true)
                         else old(records)[id]
    {
      hide Uncollected, Forest, Advances, AfterCollecting;
      AdvancesItself(records);
      CollectingNone(records);
      timedOut := !(exists id | id in ids :: Terminal(records[id].phase) || records[id].version != versions[id]);
      phases := seq(|ids|, i requires 0 <= i < |ids| && ids[i] in records reads this => records[ids[i]].phase);
      for i := 0 to |ids|
        invariant Valid() && Advances(old(records), records) && open <= old(open)
        invariant records == AfterCollecting(old(records), ids[..i])
      {
        CollectingNext(old(records), ids, i);
        CollectTerminal(ids[i]);
        AdvancesTransitive(old(records), AfterCollecting(old(records), ids[..i]), records);
      }
      assert ids[..|ids|] == ids;
      CollectingIs(old(records), ids);
    }

    method CollectTerminal(id: string)
      requires Valid() && id in records && records[id].parent.Some?
      modifies this`records, this`open
      ensures Valid() && Advances(old(records), records) && open <= old(open)
      ensures records == AfterCollecting(old(records), [id])
      ensures records[id].collected <==> old(records)[id].collected || HasEnded(records[id].phase)
    {
      hide Uncollected, Forest, Advances, Disciplined;
      AdvancesItself(records);
      var record := records[id];
      if Terminal(record.phase) && !record.collected {
        ghost var before := records;
        CollectOne(registry, records, id);
        records := records[id := record.(collected := true)];
        open := open - 1;
        DisciplineKept(before, records, closed, late);
      }
    }

    method CancelChild(owner: string, id: string) returns (r: Result<CancelStatus, TreeError>)
      requires Valid()
      modifies this`records
      ensures Valid() && Advances(old(records), records)
      ensures match r
              case Err(e) =>
                && e == NotDirectChild && records == old(records)
                && (id in records ==> records[id].parent != Some(owner) || records[id].collected)
              case Ok(AlreadyTerminal) =>
                && id in records && records[id].parent == Some(owner) && !records[id].collected
                && HasEnded(records[id].phase) && records == old(records)
              case Ok(CancellationRequested) =>
                && id in old(records) && old(records)[id].parent == Some(owner) && !old(records)[id].collected
                && !HasEnded(old(records)[id].phase)
                && records == old(records)[id := old(records)[id].(cancelRequested := true)]
    {
      hide Forest, Uncollected, Advances, Flag, Disciplined;
      AdvancesItself(records);
      if !IsOpenChild(owner, id) { return Err(NotDirectChild); }
      if Terminal(records[id].phase) { return Ok(AlreadyTerminal); }
      ghost var before := records;
      Flagged(registry, records, {id});
      FlagOne(records, id);
      records := Flag(records, {id});
      DisciplineKept(before, records, closed, late);
      return Ok(CancellationRequested);
    }

    /** Flags exactly the records reached from the owner without passing a collected one. */
    method CloseDescendants(owner: string)
      requires Valid()
      modifies this`records
      ensures Valid() && Advances(old(records), records) && records.Keys == old(records.Keys)
      ensures forall id | id in records ::
          records[id] == if OpenBelow(old(records), owner, id) then old(records)[id].(cancelRequested := true)
                         else old(records)[id]
    {
      hide OpenBelow, Forest, Uncollected, Advances, Disciplined;
      ghost var before := records;
      var found := DescendantIds(owner);
      Flagged(registry, records, found);
      records := Flag(records, found);
      DisciplineKept(before, records, closed, late);
    }

    method DescendantIds(owner: string) returns (found: set<string>)
      requires Valid()
      ensures forall id :: id in found <==> OpenBelow(records, owner, id)
      ensures forall id | id in found :: id in records && !records[id].collected
    {
      hide OpenBelow, Uncollected, Search, Forest, Disciplined;
      found := {};
      var frontier := [owner];
      ghost var done: set<string> := {};
      SearchStart(records, owner);
      while frontier != []
        invariant Search(records, owner, found, frontier, done)
        decreases |records.Keys + {owner} - done|
      {
        var parent := frontier[|frontier| - 1];
        var children := set id | id in records && records[id].parent == Some(parent) && !records[id].collected;
        var order := Listed(children);
        SearchStep(registry, records, owner, found, frontier, done, order);
        assert children == set id | id in order;
        OneFewer(records.Keys + {owner}, done, parent);
        frontier := frontier[..|frontier| - 1] + order;
        found, done := found + children, done + {parent};
      }
      SearchDone(registry, records, owner, found, done);
    }

    /** Shut the whole tree down. */
    method Close()
      requires Valid()
      modifies this`records
      ensures Valid() && Advances(old(records), records) && records.Keys == old(records.Keys)
      ensures forall id | id in records ::
          records[id] == if old(records)[id].collected then old(records)[id]
            else old(records)[id].(cancelRequested := true)
    {
      hide Forest, Advances, Disciplined;
      ghost var before := records;
      Flagged(registry, records, Uncollected(records));
      records := Flag(records, Uncollected(records));
      DisciplineKept(before, records, closed, late);
    }
  }

  // ---------------------------------------------------------------- why the steps keep it

  function Flag(rs: Records, ids: set<string>): Records {
    map id | id in rs :: if id in ids then rs[id].(cancelRequested := true) else rs[id]
  }

  lemma {:induction false} FlagOne(rs: Records, id: string)
    requires id in rs
    ensures Flag(rs, {id}) == rs[id := rs[id].(cancelRequested := true)]
  {
  }

  lemma {:induction false} FlagIs(rs: Records, ids: set<string>)
    ensures Flag(rs, ids).Keys == rs.Keys
    ensures forall id | id in rs ::
              Flag(rs, ids)[id] == if id in ids then rs[id].(cancelRequested := true) else rs[id]
  {
  }

  lemma {:induction false} NotCollected(g: Registry, rs: Records, id: string)
    requires Forest(g, rs) && id in rs && rs[id].phase == Running
    ensures !rs[id].collected
  {
    hide Authorised, Forest;
    PlaceOf(g, rs, id);
  }

  lemma {:induction false} StartedDiscipline(rs: Records, closed: set<string>, late: set<string>, owner: string,
                                             id: string, r: Record)
    requires Disciplined(rs, closed, late) && id !in rs && r.parent == Some(owner) && !Terminal(r.phase)
    ensures Disciplined(rs[id := r], closed, if owner in closed then late + {id} else late)
  {
  }

  lemma {:induction false} FinishedDiscipline(rs: Records, closed: set<string>, late: set<string>, id: string,
                                              r: Record)
    requires Disciplined(rs, closed, late) && id in rs && r.parent == rs[id].parent
    requires r.cancelRequested == rs[id].cancelRequested && (rs[id].collected ==> r.collected)
    requires id in closed || forall child | child in rs :: rs[child].parent != Some(id)
    ensures Disciplined(rs[id := r], closed + {id}, late)
  {
  }

  /** Closing an Agent flags its open children. */
  lemma {:induction false} ClosedDiscipline(g: Registry, before: Records, after: Records, closed: set<string>,
                                            late: set<string>, id: string)
    requires Disciplined(after, closed, late) && after.Keys == before.Keys && id in after && Forest(g, before)
    requires forall k | k in after ::
               after[k] == if OpenBelow(before, id, k) then before[k].(cancelRequested := true) else before[k]
    ensures Disciplined(after, closed + {id}, late)
  {
    hide Forest, Authorised;
    forall k | k in after && after[k].parent == Some(id) && !after[k].collected
      ensures after[k].cancelRequested
    {
      assert OpenBelow(before, id, k);
    }
  }

  /** Flags play no part in the search. */
  lemma {:induction false} OpenBelowSame(a: Records, b: Records, owner: string)
    requires a.Keys == b.Keys
    requires forall id | id in a ::
              b[id].parent == a[id].parent && b[id].depth == a[id].depth && b[id].collected == a[id].collected
    ensures forall id :: OpenBelow(a, owner, id) <==> OpenBelow(b, owner, id)
  {
    forall id
      ensures OpenBelow(a, owner, id) <==> OpenBelow(b, owner, id)
    {
      OpenBelowSameAt(a, b, owner, id);
    }
  }

  lemma {:induction false} OpenBelowSameAt(a: Records, b: Records, owner: string, id: string)
    requires a.Keys == b.Keys
    requires forall id | id in a ::
              b[id].parent == a[id].parent && b[id].depth == a[id].depth && b[id].collected == a[id].collected
    ensures OpenBelow(a, owner, id) <==> OpenBelow(b, owner, id)
    decreases if id in a then a[id].depth else 0
  {
    if id in a && a[id].parent.Some? && a[id].parent.value in a && a[a[id].parent.value].depth < a[id].depth {
      OpenBelowSameAt(a, b, owner, a[id].parent.value);
    }
  }

  lemma {:induction false} PlaceOf(g: Registry, rs: Records, id: string)
    requires Forest(g, rs) && id in rs
    ensures RootRecord(rs[id]) && ChildRecord(rs, rs[id]) && Authorised(g, rs[id])
  {
    assert Placed(g, rs, id);
  }

  lemma {:induction false} Flagged(g: Registry, rs: Records, ids: set<string>)
    requires Forest(g, rs) && forall id | id in ids :: id in rs && !rs[id].collected
    ensures Forest(g, Flag(rs, ids)) && Uncollected(Flag(rs, ids)) == Uncollected(rs) && Advances(rs, Flag(rs, ids))
  {
    hide Authorised, Forest;
    var after := Flag(rs, ids);
    forall id | id in after
      ensures Placed(g, after, id)
    {
      PlaceOf(g, rs, id);
      SameProfilePath(g, rs[id], after[id]);
    }
    AllPlaced(g, after);
  }

  lemma {:induction false} AllPlaced(g: Registry, rs: Records)
    requires forall id | id in rs :: Placed(g, rs, id)
    ensures Forest(g, rs)
  {
  }

  /** Changing one record's progress moves no record. */
  lemma {:induction false} Replaced(g: Registry, rs: Records, id: string, r: Record)
    requires Forest(g, rs) && id in rs && RootRecord(r) && ChildRecord(rs, r)
    requires r.profile == rs[id].profile && r.depth == rs[id].depth && r.parent == rs[id].parent
    ensures Forest(g, rs[id := r])
  {
    hide Authorised, Forest;
    var after := rs[id := r];
    forall k | k in after
      ensures Placed(g, after, k)
    {
      PlaceOf(g, rs, k);
      SameProfilePath(g, rs[k], after[k]);
    }
    AllPlaced(g, after);
  }

  lemma {:induction false} SameProfilePath(g: Registry, r: Record, s: Record)
    requires Authorised(g, r) && s.depth == r.depth && s.profile == r.profile
    ensures Authorised(g, s)
  {
    var p :| IsPath(g, p) && |p| == r.depth + 1 && p[|p| - 1] == r.profile;
    assert IsPath(g, p) && |p| == s.depth + 1 && p[|p| - 1] == s.profile;
  }

  /** A child that moves to its next phase. */
  lemma {:induction false} Moved(g: Registry, rs: Records, id: string, phase: Phase)
    requires Forest(g, rs) && id in rs
    requires (rs[id].phase == Queued && phase == Running)
              || (rs[id].phase == Running && rs[id].parent.Some? && Terminal(phase))
    ensures rs[id].version + 1 == PhaseVersion(phase)
    ensures var after := rs[id := rs[id].(phase := phase, version := rs[id].version + 1)];
            Forest(g, after) && Uncollected(after) == Uncollected(rs) && Advances(rs, after)
  {
    hide Authorised, Forest;
    var after := rs[id := rs[id].(phase := phase, version := rs[id].version + 1)];
    PlaceOf(g, rs, id);
    assert !rs[id].collected;
    Replaced(g, rs, id, after[id]);
  }

  lemma {:induction false} CollectOne(g: Registry, rs: Records, id: string)
    requires Forest(g, rs) && id in rs && Terminal(rs[id].phase) && !rs[id].collected && rs[id].parent.Some?
    ensures var after := rs[id := rs[id].(collected := true)];
            Forest(g, after) && |Uncollected(after)| == |Uncollected(rs)| - 1 && Advances(rs, after)
  {
    hide Authorised, Forest;
    var after := rs[id := rs[id].(collected := true)];
    PlaceOf(g, rs, id);
    Replaced(g, rs, id, after[id]);
    assert Uncollected(after) == Uncollected(rs) - {id};
  }

  lemma {:induction false} NewRecord(g: Registry, rs: Records, id: string, r: Record)
    requires Forest(g, rs) && id !in rs && r.parent.Some? && r.parent.value in rs
    requires r.depth == rs[r.parent.value].depth + 1 && r.phase == Queued && !r.collected && r.version == 0
    requires Authorised(g, r)
    ensures Forest(g, rs[id := r]) && |Uncollected(rs[id := r])| == |Uncollected(rs)| + 1 && Advances(rs, rs[id := r])
  {
    hide Authorised, Forest;
    var after := rs[id := r];
    forall k | k in after
      ensures Placed(g, after, k)
    {
      if k != id { PlaceOf(g, rs, k); }
    }
    AllPlaced(g, after);
    assert Uncollected(after) == Uncollected(rs) + {id};
  }

  lemma {:induction false} AdvancesItself(rs: Records)
    ensures Advances(rs, rs)
  {
  }

  lemma {:induction false} Admitted(g: Registry, rs: Records, owner: string, profile: string, id: string)
    requires Forest(g, rs) && owner in rs && id !in rs && rs[owner].profile in g && profile in g[rs[owner].profile]
    requires ChildrenKnown(g)
    ensures Shallow(g) ==> rs[owner].depth + 1 <= MAX_DEPTH
    ensures var after := rs[id := Record(profile, Some(owner), rs[owner].depth + 1, Queued, false, false, 0)];
            Forest(g, after) && |Uncollected(after)| == |Uncollected(rs)| + 1 && Advances(rs, after)
  {
    hide Shallow, IsPath, ChildrenKnown, Uncollected, Advances, Forest, Authorised;
    PlaceOf(g, rs, owner);
    ChildPath(g, rs[owner], profile);
    NewRecord(g, rs, id, Record(profile, Some(owner), rs[owner].depth + 1, Queued, false, false, 0));
  }

  /** In a tree grown under a validated registry no Agent is deeper than three. */
  lemma {:induction false} DepthAtMostThree(g: Registry, rs: Records, id: string)
    requires Forest(g, rs) && Shallow(g) && id in rs
    ensures rs[id].depth <= MAX_DEPTH
  {
    hide IsPath;
    PlaceOf(g, rs, id);
    var p :| IsPath(g, p) && |p| == rs[id].depth + 1 && p[|p| - 1] == rs[id].profile;
  }

  /** An authorised child extends its owner's chain, which in a shallow registry ends at depth three. */
  lemma {:induction false} ChildPath(g: Registry, owner: Record, profile: string)
    requires Authorised(g, owner) && owner.profile in g && profile in g[owner.profile] && ChildrenKnown(g)
    ensures Shallow(g) ==> owner.depth + 1 <= MAX_DEPTH
    ensures forall r: Record | r.depth == owner.depth + 1 && r.profile == profile :: Authorised(g, r)
  {
    var p :| IsPath(g, p) && |p| == owner.depth + 1 && p[|p| - 1] == owner.profile;
    var q := p + [profile];
    assert IsPath(g, q);
    assert |q| == owner.depth + 2 && q[|q| - 1] == profile;
  }

  // ---------------------------------------------------------------- what closing an Agent leaves unflagged

  lemma {:induction false} DeeperBelow(g: Registry, rs: Records, owner: string, id: string)
    requires Forest(g, rs) && Below(rs, owner, id)
    ensures owner in rs && rs[owner].depth < rs[id].depth
    decreases rs[id].depth
  {
    hide Authorised, Forest;
    PlaceOf(g, rs, id);
    if rs[id].parent.value != owner { DeeperBelow(g, rs, owner, rs[id].parent.value); }
  }

  /** What closing its open descendants leaves unflagged was started by an Agent that is still at work. */
  lemma {:induction false} MissedAreAtWork(g: Registry, rs: Records, closed: set<string>, late: set<string>,
                                           owner: string, id: string)
    requires Forest(g, rs) && Disciplined(rs, closed, late)
    requires forall k | OpenBelow(rs, owner, k) :: rs[k].cancelRequested
    requires Below(rs, owner, id) && !rs[id].collected && !rs[id].cancelRequested && id !in late
    ensures CutOff(rs, owner, id)
    ensures rs[id].parent.value in rs && rs[id].parent.value !in closed && !rs[rs[id].parent.value].collected
  {
    hide Authorised, Forest;
    MissedDescendants(rs, owner, id);
    PlaceOf(g, rs, id);
    PlaceOf(g, rs, rs[id].parent.value);
  }

  /**
   Under a validated registry that leaves none: once a subagent has closed, all its uncollected descendants are flagged,
   even those that the search does not reach.
   */
  lemma {:induction false} SubagentCloseReachesAll(g: Registry, rs: Records, closed: set<string>, late: set<string>,
                                                   owner: string, id: string)
    requires Forest(g, rs) && Disciplined(rs, closed, late) && Shallow(g)
    requires owner in rs && rs[owner].parent.Some? && forall k | OpenBelow(rs, owner, k) :: rs[k].cancelRequested
    requires Below(rs, owner, id) && !rs[id].collected && id !in late
    ensures rs[id].cancelRequested
  {
    hide Authorised, Forest, Shallow, Disciplined, OpenBelow;
    if !rs[id].cancelRequested {
      MissedAreAtWork(g, rs, closed, late, owner, id);
      var parent := rs[id].parent.value;
      assert CutOff(rs, owner, parent);
      PlaceOf(g, rs, id);
      PlaceOf(g, rs, parent);
      PlaceOf(g, rs, owner);
      DeeperBelow(g, rs, owner, rs[parent].parent.value);
      DepthAtMostThree(g, rs, id);
    }
  }

  /** Profiles in a row: the deepest chain that is allowed. */
  const CHAIN: Registry := map["main" := ["one"], "one" := ["two"], "two" := ["three"], "three" := []]

  lemma {:induction false} ChainKnown()
    ensures ChildrenKnown(CHAIN)
  {
  }

  /**
   From the root the search can miss an Agent that was never flagged: `s` starts `a`, closes and is collected; then `a`,
   flagged but still running, starts `b`.
   */
  method MissFromRoot() returns (before: Records, after: Records)
    ensures Forest(CHAIN, before) && before.Keys == after.Keys
    ensures Below(before, "root", "b") && CutOff(before, "root", "b") && !before["b"].collected
    ensures !after["b"].cancelRequested && after["b"].phase == Queued
    ensures forall id | id in after ::
        after[id] == if OpenBelow(before, "root", id) then before[id].(cancelRequested := true) else before[id]
  {
    hide Forest, Disciplined, Uncollected, Shallow, ChildrenKnown, Advances, OpenBelow, Below, CutOff, CHAIN;
    ChainKnown();
    ChainIs();
    var control := GrowTwo();
    CloseFirst(control);
    var b := control.StartChild("a", ["three"], "three", "b", true);
    before := control.records;
    BehindCollected(before);
    control.CloseDescendants("root");
    after := control.records;
  }

  function Child(profile: string, parent: string, depth: nat): Record {
    Record(profile, Some(parent), depth, Running, false, false, 1)
  }

  /** The root, its child `s` and the child `a` of that, all running. */
  method GrowTwo() returns (control: AgentTreeControl)
    ensures fresh(control) && control.Valid() && control.registry == CHAIN && control.maxOpen == 4 && control.open == 3
    ensures control.records == map["root" := Record("main", None, 0, Running, false, false, 0),
                                   "s" := Child("one", "root", 1), "a" := Child("two", "s", 2)]
  {
    hide Forest, Disciplined, Uncollected, Shallow, ChildrenKnown, Advances, CHAIN;
    ChainKnown();
    ChainIs();
    control := new AgentTreeControl(4, CHAIN);
    var root := control.RegisterRoot("root", "main");
    var s := control.StartChild("root", ["one"], "one", "s", true);
    control.Begin("s");
    var a := control.StartChild("s", ["two"], "two", "a", true);
    control.Begin("a");
  }

  /** The Agent `s` closes, ends and is collected. */
  method CloseFirst(control: AgentTreeControl)
    requires control.Valid() && control.open == 3
    requires control.records == map["root" := Record("main", None, 0, Running, false, false, 0),
                                    "s" := Child("one", "root", 1), "a" := Child("two", "s", 2)]
    modifies control
    ensures control.Valid() && control.open <= 3 && control.records.Keys == {"root", "s", "a"}
    ensures control.records["s"].collected
    ensures control.records["s"].parent == Some("root") && control.records["s"].depth == 1
    ensures control.records["a"].parent == Some("s")
    ensures control.records["a"].depth == 2 && control.records["a"].profile == "two"
  {
    hide Forest, Disciplined, Uncollected, Advances, OpenBelow;
    control.CloseAgent("s");
    control.Finish("s", Completed);
    var timedOut, phases := control.EndWait(["s"], map["s" := 0]);
    assert "s" in ["s"];
  }

  lemma {:induction false} ChainIs()
    ensures CHAIN == map["main" := ["one"], "one" := ["two"], "two" := ["three"], "three" := []]
  {
  }

  lemma {:induction false} BehindCollected(rs: Records)
    requires "s" in rs && "a" in rs && "b" in rs && "root" in rs
    requires rs["b"].parent == Some("a") && rs["a"].parent == Some("s") && rs["s"].parent == Some("root")
    requires rs["b"].depth == 3 && rs["a"].depth == 2 && rs["s"].depth == 1 && rs["s"].collected && !rs["b"].collected
    ensures Below(rs, "root", "b") && CutOff(rs, "root", "b") && !OpenBelow(rs, "root", "b")
  {
    assert Below(rs, "root", "s") && Below(rs, "root", "a");
    assert CutOff(rs, "root", "a");
    MissedDescendants(rs, "root", "b");
  }

  // ---------------------------------------------------------------- the search for descendants

  /** What was found lies below the owner, and everything directly under an expanded record was found. */
  ghost predicate Finding(rs: Records, owner: string, found: set<string>, done: set<string>) {
    && (forall id | id in found :: OpenBelow(rs, owner, id) && rs[id].parent.value in done)
    && (forall id | id in rs && !rs[id].collected && rs[id].parent.Some? && rs[id].parent.value in done :: id in found)
  }

  /** The frontier holds, once each, the owner and the found records not yet expanded. */
  ghost predicate Frontier(owner: string, found: set<string>, frontier: seq<string>, done: set<string>) {
    && (forall i, j | 0 <= i < j < |frontier| :: frontier[i] != frontier[j])
    && (forall f | f in frontier :: f !in done && (f == owner || f in found))
    && (forall id | id in found + {owner} :: id in done || id in frontier)
    && done <= found + {owner}
  }

  ghost predicate Search(rs: Records, owner: string, found: set<string>, frontier: seq<string>, done: set<string>) {
    Finding(rs, owner, found, done) && Frontier(owner, found, frontier, done)
  }

  lemma {:induction false} SearchStart(rs: Records, owner: string)
    ensures Search(rs, owner, {}, [owner], {})
  {
  }

  lemma {:induction false} DeeperThanOwner(g: Registry, rs: Records, owner: string, id: string)
    requires Forest(g, rs) && OpenBelow(rs, owner, id)
    ensures owner in rs && rs[owner].depth < rs[id].depth
    decreases rs[id].depth
  {
    hide Authorised, Forest;
    PlaceOf(g, rs, id);
    if rs[id].parent.value != owner {
      DeeperThanOwner(g, rs, owner, rs[id].parent.value);
    }
  }

  lemma {:induction false} SearchStep(g: Registry, rs: Records, owner: string, found: set<string>,
                                      frontier: seq<string>, done: set<string>, children: seq<string>)
    requires Forest(g, rs) && Search(rs, owner, found, frontier, done) && frontier != []
    requires forall id :: id in children
                     <==> id in rs && rs[id].parent == Some(frontier[|frontier| - 1]) && !rs[id].collected
    requires forall i, j | 0 <= i < j < |children| :: children[i] != children[j]
    ensures var parent := frontier[|frontier| - 1];
            && Search(rs, owner, found + (set id | id in children), frontier[..|frontier| - 1] + children,
                 done + {parent})
            && parent !in done && (parent in rs || parent == owner)
  {
    hide Forest, OpenBelow, Frontier, Finding;
    var parent, rest := frontier[|frontier| - 1], frontier[..|frontier| - 1];
    assert frontier == rest + [parent];
    forall id | id in children
      ensures OpenBelow(rs, owner, id) && id !in found && id != owner
    {
      NewlyFound(g, rs, owner, found, frontier, done, id);
    }
    FrontierStep(owner, found, rest, parent, done, children);
    FindingStep(rs, owner, found, done, parent, children);
    FrontierMembers(owner, found, frontier, done);
    assert parent in frontier;
    if parent != owner {
      FoundIsBelow(rs, owner, found, done, parent);
      OpenBelowIs(rs, owner, parent);
    }
  }

  lemma {:induction false} FrontierMembers(owner: string, found: set<string>, frontier: seq<string>, done: set<string>)
    requires Frontier(owner, found, frontier, done)
    ensures forall f | f in frontier :: f !in done && (f == owner || f in found)
  {
  }

  lemma {:induction false} FoundIsBelow(rs: Records, owner: string, found: set<string>, done: set<string>, id: string)
    requires Finding(rs, owner, found, done) && id in found
    ensures OpenBelow(rs, owner, id) && id in rs && rs[id].parent.Some? && rs[id].parent.value in done
  {
    hide OpenBelow;
    OpenBelowIs(rs, owner, id);
  }

  lemma {:induction false} NewlyFound(g: Registry, rs: Records, owner: string, found: set<string>,
                                      frontier: seq<string>, done: set<string>, id: string)
    requires Forest(g, rs) && Search(rs, owner, found, frontier, done) && frontier != []
    requires id in rs && rs[id].parent == Some(frontier[|frontier| - 1]) && !rs[id].collected
    ensures OpenBelow(rs, owner, id) && id !in found && id != owner
  {
    hide Forest, OpenBelow, Frontier, Finding;
    var parent := frontier[|frontier| - 1];
    FrontierMembers(owner, found, frontier, done);
    assert parent in frontier;
    if parent != owner { FoundIsBelow(rs, owner, found, done, parent); }
    ChildIsOpenBelow(g, rs, owner, parent, id);
    DeeperThanOwner(g, rs, owner, id);
    if id in found { FoundIsBelow(rs, owner, found, done, id); }
  }

  lemma {:induction false} FrontierStep(owner: string, found: set<string>, rest: seq<string>, parent: string,
                                        done: set<string>, children: seq<string>)
    requires Frontier(owner, found, rest + [parent], done)
    requires forall id | id in children :: id !in found && id != owner
    requires forall i, j | 0 <= i < j < |children| :: children[i] != children[j]
    ensures Frontier(owner, found + (set id | id in children), rest + children, done + {parent})
  {
    var before := rest + [parent];
    assert forall f | f in rest :: f in before;
    assert before[|rest|] == parent;
    assert forall i | 0 <= i < |rest| :: before[i] == rest[i];
    NoRepeats(rest, children);
  }

  lemma {:induction false} FindingStep(rs: Records, owner: string, found: set<string>, done: set<string>,
                                       parent: string, children: seq<string>)
    requires Finding(rs, owner, found, done) && forall id | id in children :: OpenBelow(rs, owner, id)
    requires forall id :: id in children <==> id in rs && rs[id].parent == Some(parent) && !rs[id].collected
    ensures Finding(rs, owner, found + (set id | id in children), done + {parent})
  {
    hide OpenBelow;
    forall id | id in found
      ensures id in rs && rs[id].parent.Some?
    {
      OpenBelowIs(rs, owner, id);
    }
  }

  lemma {:induction false} NoRepeats(xs: seq<string>, ys: seq<string>)
    requires forall i, j | 0 <= i < j < |xs| :: xs[i] != xs[j]
    requires forall i, j | 0 <= i < j < |ys| :: ys[i] != ys[j]
    requires forall y | y in ys :: y !in xs
    ensures forall i, j | 0 <= i < j < |xs + ys| :: (xs + ys)[i] != (xs + ys)[j]
  {
    forall i, j | 0 <= i < j < |xs + ys|
      ensures (xs + ys)[i] != (xs + ys)[j]
    {
      if i < |xs| <= j {
        assert ys[j - |xs|] in ys && xs[i] in xs;
      }
    }
  }

  lemma {:induction false} OpenBelowIs(rs: Records, owner: string, id: string)
    requires OpenBelow(rs, owner, id)
    ensures id in rs && rs[id].parent.Some? && !rs[id].collected
  {
  }

  lemma {:induction false} ChildIsOpenBelow(g: Registry, rs: Records, owner: string, parent: string, id: string)
    requires Forest(g, rs) && id in rs && rs[id].parent == Some(parent) && !rs[id].collected
    requires parent == owner || OpenBelow(rs, owner, parent)
    ensures OpenBelow(rs, owner, id)
  {
    hide Authorised, Forest;
    PlaceOf(g, rs, id);
  }

  lemma {:induction false} SearchDone(g: Registry, rs: Records, owner: string, found: set<string>, done: set<string>)
    requires Forest(g, rs) && Search(rs, owner, found, [], done)
    ensures forall id :: id in found <==> OpenBelow(rs, owner, id)
    ensures forall id | id in found :: id in rs && !rs[id].collected
  {
    hide OpenBelow, Forest;
    forall id
      ensures OpenBelow(rs, owner, id) ==> id in found
      ensures id in found ==> id in rs && !rs[id].collected
    {
      if id in found { OpenBelowIs(rs, owner, id); }
      if OpenBelow(rs, owner, id) { FoundBelow(g, rs, owner, found, done, id); }
    }
  }

  lemma {:induction false} FoundBelow(g: Registry, rs: Records, owner: string, found: set<string>, done: set<string>,
                                      id: string)
    requires Forest(g, rs) && Search(rs, owner, found, [], done) && OpenBelow(rs, owner, id)
    ensures id in found
    decreases rs[id].depth
  {
    hide Authorised, Forest;
    if rs[id].parent.value != owner {
      FoundBelow(g, rs, owner, found, done, rs[id].parent.value);
    }
  }

  /** The members of a set in some order. */
  method Listed(s: set<string>) returns (r: seq<string>)
    ensures forall x :: x in r <==> x in s
    ensures forall i, j | 0 <= i < j < |r| :: r[i] != r[j]
  {
    r := [];
    var left := s;
    while left != {}
      invariant forall x :: x in s <==> x in r || x in left
      invariant forall x | x in r :: x !in left
      invariant forall i, j | 0 <= i < j < |r| :: r[i] != r[j]
      decreases left
    {
      var x :| x in left;
      r, left := r + [x], left - {x};
    }
  }
}
