/** Which schemas follow from which, through children and references (restscope/openapi_parser/document_builder.py). */
module SchemaReach {
  import opened Wrappers
  import opened Indexes
  import opened ComponentNames
  import opened RawSchemas
  import opened DocumentShapes

  /** The schema is a reference, or has one beside its parsed form or anywhere in the raw part that is rebuilt. */
  ghost predicate NodeMentions(g: Graph, id: nat, ref: Raw) {
    && id < |g.nodes|
    && if g.nodes[id].refPath.Some? then ref == RText(g.nodes[id].refPath.value)
       else (&& IsPlain(g, id)
             && ((ref != RNull && TopRef(g.nodes[id].raw) == ref) || NodeFollows(g.nodes[id].raw, {}, ref)))
  }

  ghost predicate NamesNode(g: Graph, ref: Raw, id: nat) {
    ref.RText? && var name := NameFromRef(ref.text, g.components.Keys); name.Ok? && g.components[name.value] == id
  }

  ghost predicate IsChild(g: Graph, a: nat, b: nat) {
    IsPlain(g, a) && exists k | 0 <= k < |g.nodes[a].children| :: g.nodes[a].children[k].node == b
  }

  /** Serialising schema a leads to schema b directly. */
  ghost predicate Next(g: Graph, a: nat, b: nat) {
    IsChild(g, a, b) || exists ref :: NodeMentions(g, a, ref) && NamesNode(g, ref, b)
  }

  ghost predicate Route(g: Graph, p: seq<nat>) {
    forall i | 0 <= i < |p| - 1 :: Next(g, p[i], p[i + 1])
  }

  ghost predicate Leads(g: Graph, a: nat, b: nat) {
    exists p :: Route(g, p) && |p| > 1 && p[0] == a && p[|p| - 1] == b
  }

  ghost predicate AtOrLeads(g: Graph, a: nat, b: nat) {
    a == b || Leads(g, a, b)
  }

  lemma {:induction false} LeadsOn(g: Graph, a: nat, b: nat, c: nat)
    requires AtOrLeads(g, a, b) && Next(g, b, c)
    ensures Leads(g, a, c)
  {
    hide Next;
    if a == b {
      assert Route(g, [a, c]);
    } else {
      var p :| Route(g, p) && |p| > 1 && p[0] == a && p[|p| - 1] == b;
      assert Route(g, p + [c]);
    }
  }

  /** A schema without children and references leads nowhere. */
  lemma {:induction false} LeadsNowhere(g: Graph, id: nat)
    requires IsPlain(g, id) && g.nodes[id].children == [] && TopRef(g.nodes[id].raw) == RNull
    requires forall ref :: !NodeFollows(g.nodes[id].raw, {}, ref)
    ensures forall ref :: !NodeMentions(g, id, ref)
    ensures forall b :: !Next(g, id, b)
    ensures forall b :: !Leads(g, id, b)
  {
    hide NodeFollows, NamesNode;
    assert forall ref :: !NodeMentions(g, id, ref);
    assert forall b :: !Next(g, id, b);
    forall b ensures !Leads(g, id, b) {
      if p :| Route(g, p) && |p| > 1 && p[0] == id && p[|p| - 1] == b {
        FirstStep(g, p);
      }
    }
  }

  lemma {:induction false} FirstStep(g: Graph, p: seq<nat>)
    requires Route(g, p) && |p| > 1
    ensures Next(g, p[0], p[1])
  {
    hide Next;
    assert p[0 + 1] == p[1];
  }

  // ---------------------------------------------------------------- closed sets

  ghost predicate ClosedScope(g: Graph, scope: set<nat>) {
    && (forall id | id in scope :: id < |g.nodes|)
    && (forall a, b | a in scope && Next(g, a, b) :: b in scope)
  }

  /** Children and components are schemas of the graph. */
  ghost predicate WellFormed(g: Graph) {
    && (forall i, k | 0 <= i < |g.nodes| && 0 <= k < |g.nodes[i].children| :: g.nodes[i].children[k].node < |g.nodes|)
    && (forall n | n in g.components :: g.components[n] < |g.nodes|)
  }

  /** The selected schemas and all that they lead to. */
  ghost function Reachable(g: Graph, roots: seq<nat>): (scope: set<nat>)
    ensures forall id: nat :: id in scope <==> id < |g.nodes| && exists r | r in roots :: AtOrLeads(g, r, id)
  {
    set id | id in All(|g.nodes|) && exists r | r in roots :: AtOrLeads(g, r, id)
  }

  lemma {:induction false} ReachableCloses(g: Graph, roots: seq<nat>)
    requires WellFormed(g)
    ensures ClosedScope(g, Reachable(g, roots))
    ensures forall r | r in roots && r < |g.nodes| :: r in Reachable(g, roots)
  {
    hide Next, Leads;
    var scope := Reachable(g, roots);
    forall a, b | a in scope && Next(g, a, b)
      ensures b in scope
    {
      var r :| r in roots && AtOrLeads(g, r, a);
      LeadsOn(g, r, a, b);
      NextInGraph(g, a, b);
    }
    forall r | r in roots && r < |g.nodes| ensures r in scope { assert AtOrLeads(g, r, r); }
  }

  lemma {:induction false} NextInGraph(g: Graph, a: nat, b: nat)
    requires WellFormed(g) && Next(g, a, b)
    ensures b < |g.nodes|
  {
    hide NodeMentions, NameFromRef;
  }

  // ---------------------------------------------------------------- components

  /** Some schema of the set is a reference to the component. */
  ghost predicate Referenced(g: Graph, scope: set<nat>, name: string) {
    exists id | id in scope ::
      id < |g.nodes| && g.nodes[id].refPath.Some?
        && NameFromRef(g.nodes[id].refPath.value, g.components.Keys) == Ok(name)
  }

  /** The component leads back to itself. */
  ghost predicate Recursive(g: Graph, name: string) {
    name in g.components && Leads(g, g.components[name], g.components[name])
  }

  /** The component lies in the set, and is referenced there or recursive. */
  ghost predicate Wanted(g: Graph, scope: set<nat>, name: string) {
    && name in g.components && g.components[name] in scope
    && (Referenced(g, scope, name) || Recursive(g, name))
  }

  // ---------------------------------------------------------------- where a step of serialisation stands

  /** At a schema of the set, inside the components being inlined. */
  ghost predicate Inside(g: Graph, scope: set<nat>, inlining: set<string>, id: nat) {
    id in scope && forall n | n in inlining :: n in g.components && AtOrLeads(g, g.components[n], id)
  }

  lemma {:induction false} NothingInlined(g: Graph, scope: set<nat>, id: nat)
    requires id in scope
    ensures Inside(g, scope, {}, id)
  {
  }

  lemma {:induction false} InsideNext(g: Graph, scope: set<nat>, inlining: set<string>, a: nat, b: nat)
    requires ClosedScope(g, scope) && Inside(g, scope, inlining, a) && Next(g, a, b)
    ensures Inside(g, scope, inlining, b)
    ensures forall n | n in inlining :: n in g.components && Leads(g, g.components[n], b)
  {
    hide Next, Leads;
    forall n | n in inlining ensures n in g.components && Leads(g, g.components[n], b) {
      LeadsOn(g, g.components[n], a, b);
    }
  }

  ghost predicate RawOf(g: Graph, owner: nat, value: Raw) {
    forall ref | Follows(value, ref) :: NodeMentions(g, owner, ref)
  }

  ghost predicate KeywordOf(g: Graph, owner: nat, key: string, value: Raw) {
    forall ref | KeywordFollows(key, value, ref) :: NodeMentions(g, owner, ref)
  }

  lemma {:induction false} NodeKeywordOf(g: Graph, id: nat, key: string)
    requires IsPlain(g, id) && key in g.nodes[id].raw && !IsModeled(key)
    ensures KeywordOf(g, id, key, g.nodes[id].raw[key])
  {
    hide IsModeled, KeywordFollows;
    var raw := g.nodes[id].raw;
    forall ref | KeywordFollows(key, raw[key], ref) ensures NodeMentions(g, id, ref) {
      assert NodeFollows(raw, {}, ref);
    }
  }

  lemma {:induction false} EntryKeywordOf(g: Graph, owner: nat, value: Raw, key: string)
    requires RawOf(g, owner, value) && value.RDict? && key in value.entries && key != "$ref"
    ensures KeywordOf(g, owner, key, value.entries[key])
  {
    hide KeywordFollows, NodeMentions;
    forall ref | KeywordFollows(key, value.entries[key], ref) ensures NodeMentions(g, owner, ref) {
      assert Follows(value, ref);
    }
  }
}
