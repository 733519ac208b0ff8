/**
 Inputs grouped by the resource whose identity they are components of
 (restscope/request_generation/constraint_solver.py).
 */
module ResourceGroups {
  import opened Constraints

  /** Only the resource-identifier strategy matters here: its resource and component field. */
  datatype Strategy = ResourceIdentifier(resource: string, field: string) | OtherStrategy

  datatype Generator = Generator(nodeId: NodeId, strategy: Strategy)

  datatype Component = Component(field: string, nodeId: NodeId)

  /** Components of one resource, in the order their fields were first met. */
  datatype ResourceGroup = ResourceGroup(resource: string, components: seq<Component>)

  // ---------------------------------------------------------------- grouping generators

  function SetComponent(cs: seq<Component>, field: string, nodeId: NodeId): seq<Component> {
    if cs == [] then [Component(field, nodeId)]
    else if cs[0].field == field then [Component(field, nodeId)] + cs[1..]
    else [cs[0]] + SetComponent(cs[1..], field, nodeId)
  }

  function AddToGroup(gs: seq<ResourceGroup>, resource: string, field: string, nodeId: NodeId): seq<ResourceGroup> {
    if gs == [] then [ResourceGroup(resource, [Component(field, nodeId)])]
    else if gs[0].resource == resource
    then [ResourceGroup(resource, SetComponent(gs[0].components, field, nodeId))] + gs[1..]
    else [gs[0]] + AddToGroup(gs[1..], resource, field, nodeId)
  }

  /** Groups of a generator list; a later generator for the same component replaces an earlier one. */
  function GroupsOf(generators: seq<Generator>): seq<ResourceGroup> {
    if generators == [] then []
    else
      var last := generators[|generators| - 1];
      var before := GroupsOf(generators[..|generators| - 1]);
      match last.strategy
      case ResourceIdentifier(resource, field) => AddToGroup(before, resource, field, last.nodeId)
      case OtherStrategy => before
  }

  function GroupIds(g: ResourceGroup): set<NodeId> {
    set c | c in g.components :: c.nodeId
  }

  function GeneratorIds(generators: seq<Generator>): set<NodeId> {
    set g | g in generators :: g.nodeId
  }

  /** Generation refuses two generators for one input. */
  ghost predicate DistinctInputs(generators: seq<Generator>) {
    forall i, j | 0 <= i < j < |generators| :: generators[i].nodeId != generators[j].nodeId
  }

  /** Distinct groups choose for distinct inputs, all of them configured. */
  ghost predicate SeparateGroups(gs: seq<ResourceGroup>, ids: set<NodeId>) {
    && (forall i, j | 0 <= i < j < |gs| :: GroupIds(gs[i]) * GroupIds(gs[j]) == {})
    && (forall i | 0 <= i < |gs| :: GroupIds(gs[i]) <= ids)
  }

  lemma {:induction false} SetComponentIds(cs: seq<Component>, field: string, nodeId: NodeId)
    ensures forall c | c in SetComponent(cs, field, nodeId) :: c in cs || c == Component(field, nodeId)
  {
    if cs != [] && cs[0].field != field {
      SetComponentIds(cs[1..], field, nodeId);
    }
  }

  lemma {:induction false} AddToGroupIds(gs: seq<ResourceGroup>, resource: string, field: string, nodeId: NodeId,
                                         ids: set<NodeId>)
    requires SeparateGroups(gs, ids) && nodeId !in ids
    ensures SeparateGroups(AddToGroup(gs, resource, field, nodeId), ids + {nodeId})
    ensures |gs| <= |AddToGroup(gs, resource, field, nodeId)|
    ensures forall i | 0 <= i < |gs| ::
              GroupIds(AddToGroup(gs, resource, field, nodeId)[i]) <= GroupIds(gs[i]) + {nodeId}
    ensures forall i | |gs| <= i < |AddToGroup(gs, resource, field, nodeId)| ::
              GroupIds(AddToGroup(gs, resource, field, nodeId)[i]) == {nodeId}
  {
    var out := AddToGroup(gs, resource, field, nodeId);
    if gs == [] {
      assert GroupIds(out[0]) == {nodeId};
    } else if gs[0].resource == resource {
      SetComponentIds(gs[0].components, field, nodeId);
      assert GroupIds(out[0]) <= GroupIds(gs[0]) + {nodeId};
      assert forall i | 1 <= i < |gs| :: out[i] == gs[i];
      assert forall i | 1 <= i < |gs| :: nodeId !in GroupIds(gs[i]) && GroupIds(gs[0]) * GroupIds(gs[i]) == {};
    } else {
      assert forall i | 0 <= i < |gs[1..]| :: gs[1..][i] == gs[i + 1];
      AddToGroupIds(gs[1..], resource, field, nodeId, ids);
      var rest := AddToGroup(gs[1..], resource, field, nodeId);
      assert out == [gs[0]] + rest;
      forall i | 0 <= i < |rest|
        ensures GroupIds(gs[0]) * GroupIds(rest[i]) == {}
      {
        if i < |gs[1..]| {
          assert GroupIds(rest[i]) <= GroupIds(gs[i + 1]) + {nodeId};
          assert GroupIds(gs[0]) * GroupIds(gs[i + 1]) == {} && nodeId !in GroupIds(gs[0]);
        } else {
          assert GroupIds(rest[i]) == {nodeId} && nodeId !in GroupIds(gs[0]);
        }
      }
    }
  }

  lemma {:induction false} GroupsAreSeparate(generators: seq<Generator>)
    requires DistinctInputs(generators)
    ensures SeparateGroups(GroupsOf(generators), GeneratorIds(generators))
  {
    if generators != [] {
      var before := generators[..|generators| - 1];
      var last := generators[|generators| - 1];
      GroupsAreSeparate(before);
      assert generators == before + [last];
      assert GeneratorIds(generators) == GeneratorIds(before) + {last.nodeId};
      match last.strategy
      case ResourceIdentifier(resource, field) =>
        AddToGroupIds(GroupsOf(before), resource, field, last.nodeId, GeneratorIds(before));
      case OtherStrategy =>
    }
  }

  // ---------------------------------------------------------------- what the groups say of the generators

  ghost predicate IsOf(g: Generator, resource: string) {
    g.strategy.ResourceIdentifier? && g.strategy.resource == resource
  }

  /** The input that stands for a field of a resource: its last generator wins. */
  ghost predicate StandsFor(generators: seq<Generator>, nodeId: NodeId, resource: string, field: string) {
    exists i | 0 <= i < |generators| ::
      && generators[i] == Generator(nodeId, ResourceIdentifier(resource, field))
      && forall j | i < j < |generators| :: generators[j].strategy != ResourceIdentifier(resource, field)
  }

  ghost predicate DistinctFields(cs: seq<Component>) {
    forall a, b | 0 <= a < b < |cs| :: cs[a].field != cs[b].field
  }

  /** Where a resource is first met, or one past the end. */
  ghost function ResourceMet(generators: seq<Generator>, resource: string): nat {
    if generators == [] || IsOf(generators[0], resource) then 0 else 1 + ResourceMet(generators[1..], resource)
  }

  ghost function FieldMet(generators: seq<Generator>, resource: string, field: string): nat {
    if generators == [] || generators[0].strategy == ResourceIdentifier(resource, field) then 0
    else 1 + FieldMet(generators[1..], resource, field)
  }

  ghost predicate ComponentsInOrder(resource: string, cs: seq<Component>, generators: seq<Generator>) {
    forall a, b | 0 <= a < b < |cs| ::
      FieldMet(generators, resource, cs[a].field) < FieldMet(generators, resource, cs[b].field)
  }

  lemma {:induction false} MetAfter(before: seq<Generator>, last: Generator, resource: string, field: string)
    ensures var m, n := ResourceMet(before, resource), |before|;
            m <= n && ResourceMet(before + [last], resource)
                      == if m < n then m else if IsOf(last, resource) then n else n + 1
    ensures var m, n := FieldMet(before, resource, field), |before|;
            m <= n && FieldMet(before + [last], resource, field)
                      == if m < n then m else if last.strategy == ResourceIdentifier(resource, field) then n else n + 1
  {
    if before != [] {
      assert (before + [last])[1..] == before[1..] + [last];
      MetAfter(before[1..], last, resource, field);
    }
  }

  lemma {:induction false} SetComponentAt(cs: seq<Component>, field: string, nodeId: NodeId) returns (k: nat)
    ensures k <= |cs| && forall j | 0 <= j < k :: cs[j].field != field
    ensures k < |cs| ==>
              cs[k].field == field && SetComponent(cs, field, nodeId) == cs[k := Component(field, nodeId)]
    ensures k == |cs| ==> SetComponent(cs, field, nodeId) == cs + [Component(field, nodeId)]
  {
    k := 0;
    if cs != [] && cs[0].field != field {
      var later := SetComponentAt(cs[1..], field, nodeId);
      k := later + 1;
      assert cs == [cs[0]] + cs[1..];
    }
  }

  lemma {:induction false} AddToGroupAt(gs: seq<ResourceGroup>, resource: string, field: string, nodeId: NodeId)
    returns (k: nat)
    ensures k <= |gs| && forall j | 0 <= j < k :: gs[j].resource != resource
    ensures var out := AddToGroup(gs, resource, field, nodeId);
            if k < |gs|
            then && gs[k].resource == resource
                 && out == gs[k := ResourceGroup(resource, SetComponent(gs[k].components, field, nodeId))]
            else out == gs + [ResourceGroup(resource, [Component(field, nodeId)])]
  {
    hide SetComponent;
    k := 0;
    if gs != [] && gs[0].resource != resource {
      var later := AddToGroupAt(gs[1..], resource, field, nodeId);
      k := later + 1;
      assert gs == [gs[0]] + gs[1..];
    }
  }

  /** What one group says of the generators. */
  ghost predicate Tells(g: ResourceGroup, generators: seq<Generator>) {
    && g.components != [] && DistinctFields(g.components) && ComponentsInOrder(g.resource, g.components, generators)
    && ResourceMet(generators, g.resource) < |generators|
    && forall n, f :: Component(f, n) in g.components <==> StandsFor(generators, n, g.resource, f)
  }

  ghost predicate TellAll(gs: seq<ResourceGroup>, generators: seq<Generator>) {
    && (forall g | g in gs :: Tells(g, generators))
    && (forall a, b | 0 <= a < b < |gs| ::
          ResourceMet(generators, gs[a].resource) < ResourceMet(generators, gs[b].resource))
    && forall r :: ResourceMet(generators, r) < |generators| ==> exists g | g in gs :: g.resource == r
  }

  lemma {:induction false} StandsForAfter(before: seq<Generator>, last: Generator, n: NodeId, r: string, f: string)
    ensures StandsFor(before + [last], n, r, f)
       <==> if last.strategy == ResourceIdentifier(r, f) then n == last.nodeId else StandsFor(before, n, r, f)
  {
    var all := before + [last];
    assert all[|before|] == last && forall j | 0 <= j < |before| :: all[j] == before[j];
    if last.strategy != ResourceIdentifier(r, f) && StandsFor(before, n, r, f) {
      var i :| 0 <= i < |before| && before[i] == Generator(n, ResourceIdentifier(r, f))
               && forall j | i < j < |before| :: before[j].strategy != ResourceIdentifier(r, f);
      assert all[i] == Generator(n, ResourceIdentifier(r, f));
    }
  }

  lemma {:induction false} MetStands(generators: seq<Generator>, r: string, f: string)
    ensures FieldMet(generators, r, f) < |generators| <==> exists n :: StandsFor(generators, n, r, f)
    ensures FieldMet(generators, r, f) < |generators| ==> ResourceMet(generators, r) < |generators|
  {
    hide StandsFor;
    if generators == [] {
      NothingStands(r, f);
    } else {
      var before, last := generators[..|generators| - 1], generators[|generators| - 1];
      assert generators == before + [last];
      MetStands(before, r, f);
      MetAfter(before, last, r, f);
      forall n {
        StandsForAfter(before, last, n, r, f);
      }
      assert last.strategy == ResourceIdentifier(r, f) ==> StandsFor(generators, last.nodeId, r, f);
    }
  }

  lemma {:induction false} NothingStands(r: string, f: string)
    ensures forall n :: !StandsFor([], n, r, f)
  {
  }

  lemma {:induction false} OtherTells(g: ResourceGroup, before: seq<Generator>, last: Generator)
    requires Tells(g, before) && !IsOf(last, g.resource)
    ensures Tells(g, before + [last])
  {
    hide StandsFor, FieldMet, ResourceMet;
    forall n, f
      ensures StandsFor(before + [last], n, g.resource, f) <==> StandsFor(before, n, g.resource, f)
    {
      StandsForAfter(before, last, n, g.resource, f);
    }
    forall a | 0 <= a < |g.components|
      ensures FieldMet(before + [last], g.resource, g.components[a].field)
           == FieldMet(before, g.resource, g.components[a].field)
    {
      ComponentMet(g, before, a);
      MetAfter(before, last, g.resource, g.components[a].field);
    }
    MetAfter(before, last, g.resource, "");
  }

  lemma {:induction false} ComponentMet(g: ResourceGroup, generators: seq<Generator>, a: nat)
    requires Tells(g, generators) && a < |g.components|
    ensures FieldMet(generators, g.resource, g.components[a].field) < |generators|
  {
    hide StandsFor;
    var c := g.components[a];
    assert Component(c.field, c.nodeId) in g.components;
    MetStands(generators, g.resource, c.field);
  }

  lemma {:induction false} GrownTells(g: ResourceGroup, before: seq<Generator>, nodeId: NodeId, field: string)
    requires Tells(g, before)
    ensures Tells(ResourceGroup(g.resource, SetComponent(g.components, field, nodeId)),
                  before + [Generator(nodeId, ResourceIdentifier(g.resource, field))])
  {
    hide StandsFor, FieldMet, ResourceMet, SetComponent;
    var r, cs, last := g.resource, g.components, Generator(nodeId, ResourceIdentifier(g.resource, field));
    var out, all := SetComponent(cs, field, nodeId), before + [last];
    var k := SetComponentAt(cs, field, nodeId);
    assert out[k] == Component(field, nodeId) && forall a | 0 <= a < |cs| && a != k :: out[a] == cs[a];
    SetMembers(cs, field, nodeId, k);
    forall n, f
      ensures Component(f, n) in out <==> StandsFor(all, n, r, f)
    {
      StandsForAfter(before, last, n, r, f);
    }
    forall a | 0 <= a < |cs|
      ensures out[a].field == cs[a].field && FieldMet(all, r, cs[a].field) == FieldMet(before, r, cs[a].field)
      ensures FieldMet(all, r, cs[a].field) < |before|
    {
      ComponentMet(g, before, a);
      MetAfter(before, last, r, cs[a].field);
    }
    MetAfter(before, last, r, field);
    if k == |cs| {
      UnknownIsUnmet(g, before, field);
    }
  }

  lemma {:induction false} UnknownIsUnmet(g: ResourceGroup, generators: seq<Generator>, field: string)
    requires Tells(g, generators) && forall a | 0 <= a < |g.components| :: g.components[a].field != field
    ensures FieldMet(generators, g.resource, field) >= |generators|
  {
    hide StandsFor;
    MetStands(generators, g.resource, field);
    forall n
      ensures !StandsFor(generators, n, g.resource, field)
    {
      assert Component(field, n) !in g.components;
    }
  }

  lemma {:induction false} SetMembers(cs: seq<Component>, field: string, nodeId: NodeId, k: nat)
    requires DistinctFields(cs) && k <= |cs| && (forall j | 0 <= j < k :: cs[j].field != field)
    requires k < |cs| ==> cs[k].field == field
    ensures var out := if k < |cs| then cs[k := Component(field, nodeId)] else cs + [Component(field, nodeId)];
            && DistinctFields(out)
            && forall n, f :: Component(f, n) in out <==> if f == field then n == nodeId else Component(f, n) in cs
  {
    var out := if k < |cs| then cs[k := Component(field, nodeId)] else cs + [Component(field, nodeId)];
    assert out[k] == Component(field, nodeId);
    forall n, f
      ensures Component(f, n) in out <==> if f == field then n == nodeId else Component(f, n) in cs
    {
      if f != field && Component(f, n) in cs {
        var j :| 0 <= j < |cs| && cs[j] == Component(f, n);
        assert out[j] == Component(f, n);
      }
    }
  }

  lemma {:induction false} NewTells(resource: string, before: seq<Generator>, nodeId: NodeId, field: string)
    requires ResourceMet(before, resource) >= |before|
    ensures Tells(ResourceGroup(resource, [Component(field, nodeId)]),
                  before + [Generator(nodeId, ResourceIdentifier(resource, field))])
  {
    hide StandsFor, FieldMet, ResourceMet;
    var last := Generator(nodeId, ResourceIdentifier(resource, field));
    MetAfter(before, last, resource, field);
    forall n, f
      ensures Component(f, n) in [Component(field, nodeId)] <==> StandsFor(before + [last], n, resource, f)
    {
      MetStands(before, resource, f);
      StandsForAfter(before, last, n, resource, f);
    }
  }

  /**
   The groups say exactly what the generators say: one group for each resource and one component for each field,
   standing for the input of its last generator, in the order in which resources and fields were first met.
   */
  lemma {:induction false} GroupsTellAll(generators: seq<Generator>)
    ensures TellAll(GroupsOf(generators), generators)
  {
    hide Tells, ResourceMet, AddToGroup;
    if generators == [] {
      NothingMet();
    } else {
      var before, last := generators[..|generators| - 1], generators[|generators| - 1];
      assert generators == before + [last];
      GroupsTellAll(before);
      match last.strategy
      case OtherStrategy => NoneTells(GroupsOf(before), before, last);
      case ResourceIdentifier(resource, field) => OneMoreTells(GroupsOf(before), before, last);
    }
  }

  lemma {:induction false} NothingMet()
    ensures forall r :: ResourceMet([], r) == 0
  {
  }

  lemma {:induction false} NoneTells(gs: seq<ResourceGroup>, before: seq<Generator>, last: Generator)
    requires TellAll(gs, before) && last.strategy.OtherStrategy?
    ensures TellAll(gs, before + [last])
  {
    hide Tells, ResourceMet;
    forall r {
      MetAfter(before, last, r, "");
    }
    forall g | g in gs ensures Tells(g, before + [last]) {
      OtherTells(g, before, last);
    }
    forall a | 0 <= a < |gs| ensures ResourceMet(before, gs[a].resource) < |before| { GroupMet(gs[a], before); }
  }

  lemma {:induction false} GroupMet(g: ResourceGroup, generators: seq<Generator>)
    requires Tells(g, generators)
    ensures ResourceMet(generators, g.resource) < |generators|
  {
  }

  lemma {:induction false} OneMoreTells(gs: seq<ResourceGroup>, before: seq<Generator>, last: Generator)
    requires TellAll(gs, before) && last.strategy.ResourceIdentifier?
    ensures TellAll(AddToGroup(gs, last.strategy.resource, last.strategy.field, last.nodeId), before + [last])
  {
    hide Tells, ResourceMet, AddToGroup, SetComponent;
    var r, f, all := last.strategy.resource, last.strategy.field, before + [last];
    var out := AddToGroup(gs, r, f, last.nodeId);
    var k := AddToGroupAt(gs, r, f, last.nodeId);
    forall a | 0 <= a < |gs|
      ensures out[a].resource == gs[a].resource && Tells(out[a], all)
      ensures ResourceMet(all, gs[a].resource) == ResourceMet(before, gs[a].resource) < |before|
    {
      GroupTells(gs[a], out[a], before, last);
    }
    if k == |gs| {
      NoneYet(gs, before, r);
      NewTells(r, before, last.nodeId, f);
      MetAfter(before, last, r, f);
    }
    OneMoreMet(gs, out, k, before, last);
  }

  lemma {:induction false} GroupTells(g: ResourceGroup, out: ResourceGroup, before: seq<Generator>, last: Generator)
    requires Tells(g, before) && last.strategy.ResourceIdentifier?
    requires out == if g.resource == last.strategy.resource
                    then ResourceGroup(g.resource, SetComponent(g.components, last.strategy.field, last.nodeId)) else g
    ensures Tells(out, before + [last])
    ensures ResourceMet(before + [last], g.resource) == ResourceMet(before, g.resource) < |before|
  {
    hide Tells, ResourceMet, SetComponent;
    GroupMet(g, before);
    MetAfter(before, last, g.resource, "");
    if g.resource == last.strategy.resource {
      GrownTells(g, before, last.nodeId, last.strategy.field);
    } else {
      OtherTells(g, before, last);
    }
  }

  lemma {:induction false} NoneYet(gs: seq<ResourceGroup>, before: seq<Generator>, resource: string)
    requires TellAll(gs, before) && forall g | g in gs :: g.resource != resource
    ensures ResourceMet(before, resource) >= |before|
  {
    hide Tells, ResourceMet;
  }

  lemma {:induction false} OneMoreMet(gs: seq<ResourceGroup>, out: seq<ResourceGroup>, k: nat, before: seq<Generator>,
                                      last: Generator)
    requires TellAll(gs, before) && last.strategy.ResourceIdentifier? && k < |out| && |gs| <= |out|
    requires out[k].resource == last.strategy.resource && forall a | 0 <= a < |gs| :: out[a].resource == gs[a].resource
    ensures forall q | ResourceMet(before + [last], q) <= |before| :: exists g | g in out :: g.resource == q
  {
    hide Tells, ResourceMet;
    forall q | ResourceMet(before + [last], q) <= |before|
      ensures exists g | g in out :: g.resource == q
    {
      MetAfter(before, last, q, "");
      if q == last.strategy.resource {
        assert out[k] in out;
      } else {
        var g :| g in gs && g.resource == q;
        var a :| 0 <= a < |gs| && gs[a] == g;
        assert out[a] in out;
      }
    }
  }
}
