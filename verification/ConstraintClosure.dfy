/**
 Whole-component constraint removal: which constraints a negative test drops
 (restscope/request_generation/constraints.py and selection.py).
 */
module ConstraintClosure {
  import opened Constraints

  /** One stored constraint: its identity, the inputs it is indexed under, and its items. */
  datatype Record = Record(id: string, owners: seq<NodeId>, items: seq<BoolExpr>)

  function OwnerSet(r: Record): set<NodeId> {
    set o | o in r.owners
  }

  /** An id is a hash of the constraint, so equal ids come with equal owners. */
  ghost predicate IdsNameConstraints(cs: seq<Record>) {
    forall r, s | r in cs && s in cs && r.id == s.id :: OwnerSet(r) == OwnerSet(s)
  }

  /** Every record that touches `inputs` has all its owners there. */
  ghost predicate Closed(cs: seq<Record>, inputs: set<NodeId>) {
    forall r | r in cs && OwnerSet(r) * inputs != {} :: OwnerSet(r) <= inputs
  }

  /** The inputs linked to `input`: the least closed set that contains it. */
  ghost predicate IsComponent(cs: seq<Record>, input: NodeId, inputs: set<NodeId>) {
    && input in inputs
    && Closed(cs, inputs)
    && forall s: set<NodeId> | input in s && Closed(cs, s) :: inputs <= s
  }

  /** Ids of the records touching `inputs`, in the order of `cs`. */
  function TouchingIds(cs: seq<Record>, inputs: set<NodeId>): seq<string> {
    if cs == [] then []
    else (if OwnerSet(cs[0]) * inputs != {} then [cs[0].id] else []) + TouchingIds(cs[1..], inputs)
  }

  function WithIds(cs: seq<Record>, ids: set<string>): seq<string> {
    if cs == [] then []
    else (if cs[0].id in ids then [cs[0].id] else []) + WithIds(cs[1..], ids)
  }

  function Retained(cs: seq<Record>, ignored: set<string>): seq<Record> {
    if cs == [] then []
    else (if cs[0].id in ignored then [] else [cs[0]]) + Retained(cs[1..], ignored)
  }

  lemma {:induction false} SameSelection(cs: seq<Record>, ids: set<string>, inputs: set<NodeId>)
    requires forall r | r in cs :: r.id in ids <==> OwnerSet(r) * inputs != {}
    ensures WithIds(cs, ids) == TouchingIds(cs, inputs)
  {
    if cs != [] {
      SameSelection(cs[1..], ids, inputs);
    }
  }

  /** So there is but one component to speak of. */
  lemma {:induction false} ComponentUnique(cs: seq<Record>, input: NodeId, s: set<NodeId>, t: set<NodeId>)
    requires IsComponent(cs, input, s) && IsComponent(cs, input, t)
    ensures s == t
  {
    assert s <= t && t <= s;
  }

  /** A closed superset absorbs the owners of a touching record. */
  lemma {:induction false} LeastGrows(cs: seq<Record>, input: NodeId, inputs: set<NodeId>, r: Record)
    requires r in cs && OwnerSet(r) * inputs != {}
    requires forall s: set<NodeId> | input in s && Closed(cs, s) :: inputs <= s
    ensures forall s: set<NodeId> | input in s && Closed(cs, s) :: inputs + OwnerSet(r) <= s
  {
    forall s: set<NodeId> | input in s && Closed(cs, s)
      ensures inputs + OwnerSet(r) <= s
    {
      assert inputs <= s;
      var o :| o in OwnerSet(r) * inputs;
      assert o in OwnerSet(r) * s;
    }
  }

  /** Exactly the constraints of the component of `input`, in input order. */
  method AssociatedConstraintIds(cs: seq<Record>, input: NodeId) returns (ids: seq<string>)
    requires IdsNameConstraints(cs)
    ensures exists inputs :: IsComponent(cs, input, inputs)
    ensures forall inputs | IsComponent(cs, input, inputs) :: ids == TouchingIds(cs, inputs)
  {
    var inputs: set<NodeId> := {input};
    var connected: set<string> := {};
    var changed := true;
    ghost var all := set r | r in cs :: r.id;
    while changed
      invariant input in inputs && connected <= all
      invariant forall s: set<NodeId> | input in s && Closed(cs, s) :: inputs <= s
      invariant forall r | r in cs && r.id in connected :: OwnerSet(r) <= inputs && OwnerSet(r) * inputs != {}
      invariant !changed ==> forall r | r in cs && r.id !in connected :: OwnerSet(r) * inputs == {}
      decreases all - connected, changed
    {
      changed := false;
      ghost var before := connected;
      for j := 0 to |cs|
        invariant input in inputs && before <= connected <= all
        invariant !changed ==> connected == before
        invariant changed ==> before != connected
        invariant forall s: set<NodeId> | input in s && Closed(cs, s) :: inputs <= s
        invariant forall r | r in cs && r.id in connected :: OwnerSet(r) <= inputs && OwnerSet(r) * inputs != {}
        invariant !changed ==> forall i | 0 <= i < j && cs[i].id !in connected :: OwnerSet(cs[i]) * inputs == {}
      {
        var item := cs[j];
        if item.id in connected {
          continue;
        }
        var owners := OwnerSet(item);
        if owners * inputs != {} {
          LeastGrows(cs, input, inputs, item);
          AddOwners(cs, inputs, connected, j);
          connected := connected + {item.id};
          inputs := inputs + owners;
          changed := true;
        }
      }
    }
    SameSelection(cs, connected, inputs);
    ids := WithIds(cs, connected);
    assert IsComponent(cs, input, inputs);
    forall s | IsComponent(cs, input, s)
      ensures ids == TouchingIds(cs, s)
    {
      ComponentUnique(cs, input, s, inputs);
    }
  }

  lemma {:induction false} AddOwners(cs: seq<Record>, inputs: set<NodeId>, connected: set<string>, j: nat)
    requires IdsNameConstraints(cs) && j < |cs|
    requires OwnerSet(cs[j]) * inputs != {}
    requires forall r | r in cs && r.id in connected :: OwnerSet(r) <= inputs && OwnerSet(r) * inputs != {}
    ensures forall r | r in cs && r.id in connected + {cs[j].id} ::
              OwnerSet(r) <= inputs + OwnerSet(cs[j]) && OwnerSet(r) * (inputs + OwnerSet(cs[j])) != {}
  {
    forall r | r in cs && r.id in connected + {cs[j].id}
      ensures OwnerSet(r) <= inputs + OwnerSet(cs[j]) && OwnerSet(r) * (inputs + OwnerSet(cs[j])) != {}
    {
      if r.id in connected {
        var o :| o in OwnerSet(r) * inputs;
        assert o in OwnerSet(r) * (inputs + OwnerSet(cs[j]));
      } else {
        assert OwnerSet(r) == OwnerSet(cs[j]);
        var o :| o in OwnerSet(r) * inputs;
        assert o in OwnerSet(r) * (inputs + OwnerSet(cs[j]));
      }
    }
  }

  lemma {:induction false} RetainedAre(cs: seq<Record>, ignored: set<string>, r: Record)
    ensures r in Retained(cs, ignored) <==> r in cs && r.id !in ignored
  {
    if cs != [] {
      RetainedAre(cs[1..], ignored, r);
      assert r in cs <==> r == cs[0] || r in cs[1..];
    }
  }

  lemma {:induction false} TouchingAre(cs: seq<Record>, inputs: set<NodeId>, id: string)
    ensures id in TouchingIds(cs, inputs) <==> exists r | r in cs :: r.id == id && OwnerSet(r) * inputs != {}
  {
    if cs != [] {
      TouchingAre(cs[1..], inputs, id);
      assert forall r :: r in cs <==> r == cs[0] || r in cs[1..];
    }
  }

  /** Negative-generator selection: ignore the whole component of the chosen input, keep the rest. */
  method DropComponent(cs: seq<Record>, input: NodeId) returns (ignored: seq<string>, kept: seq<Record>)
    requires IdsNameConstraints(cs)
    ensures exists inputs :: IsComponent(cs, input, inputs)
    ensures forall inputs | IsComponent(cs, input, inputs) :: ignored == TouchingIds(cs, inputs)
    ensures kept == Retained(cs, set id | id in ignored)
    ensures forall inputs, r | IsComponent(cs, input, inputs) && r in cs :: r in kept <==> OwnerSet(r) * inputs == {}
  {
    ignored := AssociatedConstraintIds(cs, input);
    var ids := set id | id in ignored;
    kept := Retained(cs, ids);
    forall inputs, r | IsComponent(cs, input, inputs) && r in cs
      ensures r in kept <==> OwnerSet(r) * inputs == {}
    {
      RetainedAre(cs, ids, r);
      TouchingAre(cs, inputs, r.id);
    }
  }

  /** The assignments differ only on `inputs`. */
  ghost predicate DifferOnlyOn(a: Assignments, b: Assignments, inputs: set<NodeId>) {
    forall id | id !in inputs :: (id in a <==> id in b) && (id in a ==> a[id] == b[id])
  }

  /** Owners are derived from the constraint itself, so they cover its references. */
  ghost predicate OwnsItsReferences(r: Record) {
    ReadRefsOf(r.items) + PresenceRefsOf(r.items) <= OwnerSet(r)
  }

  /**
   A retained constraint shares no owner with the component, nor with any removed
   constraint; no change to inputs of the component can change its truth.
   */
  lemma {:induction false} RetainedUnaffected(cs: seq<Record>, input: NodeId, inputs: set<NodeId>, r: Record, re: Regex)
    requires IdsNameConstraints(cs) && IsComponent(cs, input, inputs)
    requires r in Retained(cs, set id | id in TouchingIds(cs, inputs))
    ensures r in cs && OwnerSet(r) * inputs == {} && input !in r.owners
    ensures forall d | d in cs && d.id in TouchingIds(cs, inputs) ::
              OwnerSet(d) <= inputs && OwnerSet(d) * OwnerSet(r) == {}
    ensures OwnsItsReferences(r) ==>
              forall a, b | DifferOnlyOn(a, b, inputs) :: EvalSet(r.items, a, re) == EvalSet(r.items, b, re)
  {
    RetainedAre(cs, (set id | id in TouchingIds(cs, inputs)), r);
    TouchingAre(cs, inputs, r.id);
    assert OwnerSet(r) * inputs == {};
    assert forall o :: o in OwnerSet(r) * inputs <==> o in OwnerSet(r) && o in inputs;
    forall d | d in cs && d.id in TouchingIds(cs, inputs)
      ensures OwnerSet(d) <= inputs && OwnerSet(d) * OwnerSet(r) == {}
    {
      TouchingAre(cs, inputs, d.id);
      var e :| e in cs && e.id == d.id && OwnerSet(e) * inputs != {};
      assert OwnerSet(d) == OwnerSet(e) && OwnerSet(d) <= inputs;
      assert OwnerSet(d) * OwnerSet(r) <= OwnerSet(r) * inputs;
    }
    if OwnsItsReferences(r) {
      forall a, b | DifferOnlyOn(a, b, inputs)
        ensures EvalSet(r.items, a, re) == EvalSet(r.items, b, re)
      {
        MembersDependOnRefs(r.items, a, b, re);
      }
    }
  }
}
