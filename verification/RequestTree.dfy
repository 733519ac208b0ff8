/**
 Completing a joint candidate into a coherent request tree
 (restscope/request_generation/constraint_solver.py).
 */
module RequestTree {
  import opened Wrappers
  import opened Constraints

  /** Parent link of every input node of the operation. */
  type Nodes = map<NodeId, Option<NodeId>>

  function ParentOf(n: NodeId, nodes: Nodes): Option<NodeId>
    requires n in nodes
  {
    nodes[n]
  }

  /** Parent links lead to known nodes and never around in a circle. */
  ghost predicate Forest(nodes: Nodes, rank: map<NodeId, nat>) {
    && rank.Keys == nodes.Keys
    && forall n {:trigger ParentOf(n, nodes)} | n in nodes && ParentOf(n, nodes).Some? ::
         ParentOf(n, nodes).value in nodes && rank[ParentOf(n, nodes).value] < rank[n]
  }

  ghost function Ancestors(n: NodeId, nodes: Nodes, rank: map<NodeId, nat>): set<NodeId>
    requires Forest(nodes, rank) && n in nodes
    decreases rank[n]
  {
    match ParentOf(n, nodes)
    case None => {}
    case Some(p) => {p} + Ancestors(p, nodes, rank)
  }

  /** Nodes whose presence follows from the present members of `ns`. */
  ghost function Derived(sel: Assignments, ns: set<NodeId>, nodes: Nodes, rank: map<NodeId, nat>): set<NodeId>
    requires Forest(nodes, rank) && sel.Keys <= nodes.Keys
  {
    set n, p | n in ns && n in sel && IsPresence(sel[n]) && p in Ancestors(n, nodes, rank) :: p
  }

  /** A present node sits below one selected as absent. */
  ghost predicate Conflicting(sel: Assignments, nodes: Nodes, rank: map<NodeId, nat>)
    requires Forest(nodes, rank) && sel.Keys <= nodes.Keys
  {
    exists p | p in sel :: sel[p].Absent? && p in Derived(sel, sel.Keys, nodes, rank)
  }

  ghost function Overlay(a: Assignments, present: set<NodeId>): Assignments {
    map id | id in a.Keys + present :: if id in present then Present else a[id]
  }

  /** Full assignments of a joint candidate: baseline, then the candidate, then derived containers. */
  ghost function FullAssignments(sel: Assignments, baseline: Assignments, nodes: Nodes, rank: map<NodeId, nat>)
    : Assignments
    requires Forest(nodes, rank) && sel.Keys <= nodes.Keys
  {
    Overlay(baseline + sel, Derived(sel, sel.Keys, nodes, rank))
  }

  predicate PresentIn(baseline: Assignments, id: NodeId) {
    id in baseline && IsPresence(baseline[id])
  }

  /** Overrides handed to generation: the candidate plus the containers the baseline lacks. */
  ghost function FullOverrides(sel: Assignments, baseline: Assignments, nodes: Nodes, rank: map<NodeId, nat>)
    : Assignments
    requires Forest(nodes, rank) && sel.Keys <= nodes.Keys
  {
    Overlay(sel, Lacking(baseline, Derived(sel, sel.Keys, nodes, rank)))
  }

  ghost function Lacking(baseline: Assignments, ids: set<NodeId>): set<NodeId> {
    set p | p in ids && !PresentIn(baseline, p)
  }

  lemma {:induction false} OverlayStep(a: Assignments, ids: set<NodeId>, p: NodeId)
    ensures Overlay(a, ids + {p}) == Overlay(a, ids)[p := Present]
  {
  }

  lemma {:induction false} LackingStep(baseline: Assignments, ids: set<NodeId>, p: NodeId)
    ensures Lacking(baseline, ids + {p})
         == if PresentIn(baseline, p) then Lacking(baseline, ids) else Lacking(baseline, ids) + {p}
  {
  }

  /** What is left of the walk from `n` to its root: the nodes from `parent` upwards. */
  ghost function Above(parent: Option<NodeId>, nodes: Nodes, rank: map<NodeId, nat>): set<NodeId>
    requires Forest(nodes, rank) && (parent.Some? ==> parent.value in nodes)
  {
    if parent.Some? then {parent.value} + Ancestors(parent.value, nodes, rank) else {}
  }

  /** Walk from `n` to its root, marking every node passed as present. */
  method MarkAncestors(n: NodeId, sel: Assignments, baseline: Assignments, nodes: Nodes, ghost rank: map<NodeId, nat>,
                       marked: Assignments, overridden: Assignments, ghost derived: set<NodeId>)
    returns (coherent: bool, assignments: Assignments, overrides: Assignments)
    requires Forest(nodes, rank) && n in nodes
    requires marked == Overlay(baseline + sel, derived)
    requires overridden == Overlay(sel, Lacking(baseline, derived))
    ensures coherent <==> forall p | p in sel && p in Ancestors(n, nodes, rank) :: !sel[p].Absent?
    ensures coherent ==> assignments == Overlay(baseline + sel, derived + Ancestors(n, nodes, rank))
    ensures coherent ==> overrides == Overlay(sel, Lacking(baseline, derived + Ancestors(n, nodes, rank)))
  {
    assignments, overrides := marked, overridden;
    var parent := ParentOf(n, nodes);
    ghost var walked: set<NodeId> := {};
    assert derived + walked == derived;
    while parent.Some?
      invariant parent.Some? ==> parent.value in nodes
      invariant Ancestors(n, nodes, rank) == walked + Above(parent, nodes, rank)
      invariant forall p | p in walked && p in sel :: !sel[p].Absent?
      invariant assignments == Overlay(baseline + sel, derived + walked)
      invariant overrides == Overlay(sel, Lacking(baseline, derived + walked))
      decreases if parent.Some? then rank[parent.value] + 1 else 0
    {
      var p := parent.value;
      if p in sel && sel[p].Absent? {
        return false, assignments, overrides;
      }
      OverlayStep(baseline + sel, derived + walked, p);
      OverlayStep(sel, Lacking(baseline, derived + walked), p);
      LackingStep(baseline, derived + walked, p);
      assert derived + walked + {p} == derived + (walked + {p});
      assignments := assignments[p := Present];
      if !PresentIn(baseline, p) {
        overrides := overrides[p := Present];
      }
      walked := walked + {p};
      parent := ParentOf(p, nodes);
    }
    coherent := true;
  }

  method CompleteCandidate(sel: Assignments, baseline: Assignments, nodes: Nodes, ghost rank: map<NodeId, nat>)
    returns (r: Option<(Assignments, Assignments)>)
    requires Forest(nodes, rank) && sel.Keys <= nodes.Keys
    ensures r.None? <==> Conflicting(sel, nodes, rank)
    ensures r.Some? ==> r.value.0 == FullAssignments(sel, baseline, nodes, rank)
    ensures r.Some? ==> r.value.1 == FullOverrides(sel, baseline, nodes, rank)
  {
    var assignments := baseline + sel;
    var overrides := sel;
    var todo := sel.Keys;
    ghost var derived := {};
    while todo != {}
      invariant todo <= sel.Keys
      invariant derived == Derived(sel, sel.Keys - todo, nodes, rank)
      invariant forall p | p in derived && p in sel :: !sel[p].Absent?
      invariant assignments == Overlay(baseline + sel, derived)
      invariant overrides == Overlay(sel, Lacking(baseline, derived))
      decreases todo
    {
      var n :| n in todo;
      todo := todo - {n};
      assert sel.Keys - todo - {n} == sel.Keys - (todo + {n});
      DerivedStep(sel, sel.Keys - todo, n, nodes, rank);
      if IsPresence(sel[n]) {
        var coherent;
        coherent, assignments, overrides :=
          MarkAncestors(n, sel, baseline, nodes, rank, assignments, overrides, derived);
        if !coherent {
          return None;
        }
        derived := derived + Ancestors(n, nodes, rank);
      }
    }
    assert sel.Keys - todo == sel.Keys;
    return Some((assignments, overrides));
  }

  lemma {:induction false} DerivedStep(sel: Assignments, ns: set<NodeId>, n: NodeId, nodes: Nodes,
                                       rank: map<NodeId, nat>)
    requires Forest(nodes, rank) && sel.Keys <= nodes.Keys && n in ns && n in sel && ns <= sel.Keys
    ensures Derived(sel, ns, nodes, rank) <= Derived(sel, sel.Keys, nodes, rank)
    ensures Derived(sel, ns, nodes, rank)
         == Derived(sel, ns - {n}, nodes, rank) + (if IsPresence(sel[n]) then Ancestors(n, nodes, rank) else {})
  {
  }

  /** The partial view the search prunes with: only what the chosen prefix settles. */
  ghost function PartialView(sel: Assignments, nodes: Nodes, rank: map<NodeId, nat>): Assignments
    requires Forest(nodes, rank) && sel.Keys <= nodes.Keys
  {
    Overlay(sel, Derived(sel, sel.Keys, nodes, rank))
  }

  method PartialCandidate(sel: Assignments, nodes: Nodes, ghost rank: map<NodeId, nat>) returns (r: Option<Assignments>)
    requires Forest(nodes, rank) && sel.Keys <= nodes.Keys
    ensures r.None? <==> Conflicting(sel, nodes, rank)
    ensures r.Some? ==> r.value == PartialView(sel, nodes, rank)
  {
    var assignments := sel;
    var todo := sel.Keys;
    ghost var derived := {};
    while todo != {}
      invariant todo <= sel.Keys
      invariant derived == Derived(sel, sel.Keys - todo, nodes, rank)
      invariant forall p | p in derived && p in sel :: !sel[p].Absent?
      invariant assignments == Overlay(sel, derived)
      decreases todo
    {
      var n :| n in todo;
      todo := todo - {n};
      assert sel.Keys - todo - {n} == sel.Keys - (todo + {n});
      DerivedStep(sel, sel.Keys - todo, n, nodes, rank);
      if sel[n].Absent? {
        continue;
      }
      var parent := ParentOf(n, nodes);
      ghost var goal := derived + Ancestors(n, nodes, rank);
      assert goal <= Derived(sel, sel.Keys, nodes, rank);
      while parent.Some?
        invariant parent.Some? ==> parent.value in nodes
        invariant goal == derived + Above(parent, nodes, rank)
        invariant forall p | p in derived && p in sel :: !sel[p].Absent?
        invariant assignments == Overlay(sel, derived)
        decreases if parent.Some? then rank[parent.value] + 1 else 0
      {
        var p := parent.value;
        if p in sel && sel[p].Absent? {
          assert p in goal;
          return None;
        }
        OverlayStep(sel, derived, p);
        assignments := assignments[p := Present];
        derived := derived + {p};
        parent := ParentOf(p, nodes);
      }
    }
    assert sel.Keys - todo == sel.Keys;
    return Some(assignments);
  }

  /** No input read for its value lies above a selectable input. */
  ghost predicate ReadsOnlyLeaves(readIds: set<NodeId>, selectable: set<NodeId>, nodes: Nodes, rank: map<NodeId, nat>)
    requires Forest(nodes, rank) && selectable <= nodes.Keys
  {
    forall r, n | r in readIds && n in selectable :: r !in Ancestors(n, nodes, rank)
  }

  /** A node that is nobody's parent lies above nothing. */
  lemma {:induction false} ChildlessIsNoAncestor(r: NodeId, n: NodeId, nodes: Nodes, rank: map<NodeId, nat>)
    requires Forest(nodes, rank) && n in nodes
    requires forall m | m in nodes :: ParentOf(m, nodes) != Some(r)
    ensures r !in Ancestors(n, nodes, rank)
    decreases rank[n]
  {
    if ParentOf(n, nodes).Some? {
      ChildlessIsNoAncestor(r, ParentOf(n, nodes).value, nodes, rank);
    }
  }

  lemma {:induction false} DerivedGrows(sel: Assignments, full: Assignments, nodes: Nodes, rank: map<NodeId, nat>)
    requires Forest(nodes, rank) && full.Keys <= nodes.Keys && Extends(sel, full)
    ensures sel.Keys <= full.Keys
    ensures Derived(sel, sel.Keys, nodes, rank) <= Derived(full, full.Keys, nodes, rank)
    ensures Conflicting(sel, nodes, rank) ==> Conflicting(full, nodes, rank)
  {
    assert sel.Keys <= full.Keys;
    forall p | p in Derived(sel, sel.Keys, nodes, rank)
      ensures p in Derived(full, full.Keys, nodes, rank)
    {
      var n :| n in sel && IsPresence(sel[n]) && p in Ancestors(n, nodes, rank);
      assert n in full && full[n] == sel[n];
    }
  }

  /** The partial view agrees with every coherent completion on all that constraints observe. */
  lemma {:induction false} PartialViewAgrees(sel: Assignments, full: Assignments, baseline: Assignments,
                                             readIds: set<NodeId>, testIds: set<NodeId>,
                                             nodes: Nodes, rank: map<NodeId, nat>)
    requires Forest(nodes, rank) && full.Keys <= nodes.Keys && Extends(sel, full)
    requires !Conflicting(full, nodes, rank)
    requires ReadsOnlyLeaves(readIds, full.Keys, nodes, rank)
    ensures sel.Keys <= nodes.Keys
    ensures Agrees(PartialView(sel, nodes, rank), FullAssignments(full, baseline, nodes, rank), readIds, testIds)
  {
    DerivedGrows(sel, full, nodes, rank);
    var p, f := PartialView(sel, nodes, rank), FullAssignments(full, baseline, nodes, rank);
    var derived := Derived(full, full.Keys, nodes, rank);
    forall id | id in p
      ensures id in f && IsPresence(f[id]) == IsPresence(p[id])
      ensures id in readIds ==> f[id] == p[id]
    {
      if id !in Derived(sel, sel.Keys, nodes, rank) && id in derived {
        assert id in full && full[id] == sel[id] == p[id];
        assert !full[id].Absent?;
        var n :| n in full && IsPresence(full[n]) && id in Ancestors(n, nodes, rank);
        assert id !in readIds;
      }
    }
  }

  /** Every value of the completed assignments reaches the request, from the overrides or from the baseline. */
  lemma {:induction false} ValuesAreSent(sel: Assignments, baseline: Assignments, nodes: Nodes, rank: map<NodeId, nat>)
    requires Forest(nodes, rank) && sel.Keys <= nodes.Keys
    ensures var full, sent := FullAssignments(sel, baseline, nodes, rank),
                              baseline + FullOverrides(sel, baseline, nodes, rank);
            && full.Keys == sent.Keys
            && (forall id | id in full :: IsPresence(sent[id]) == IsPresence(full[id])
                                          || (id in sel && sel[id].Absent?))
            && (forall id | id in full && full[id].PresentWith? :: sent[id] == full[id])
  {
    hide Derived;
  }
}
