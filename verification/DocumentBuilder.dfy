/** Building a self-contained OpenAPI document from a schema graph (restscope/openapi_parser/document_builder.py). */
module DocumentBuilder {
  import opened Wrappers
  import opened Indexes
  import opened ComponentNames
  import opened RawSchemas
  import opened DocumentShapes
  import opened SchemaReach

  datatype BuildError = BadName(error: NameError) | AnonymousRecursion | RefNotText | RefToBoolean

  // ---------------------------------------------------------------- finished components

  /** Each finished component describes its own schema, which is written out unless it is a reference or a boolean. */
  ghost predicate ComponentsDescribe(g: Graph, built: map<string, Out>) {
    forall n | n in built ::
      n in g.components && Describes(g, built[n], g.components[n])
      && (IsPlain(g, g.components[n]) ==> built[n].OutSchema?)
  }

  ghost predicate ChildrenDescribe(g: Graph, children: seq<(Child, Out)>) {
    forall i | 0 <= i < |children| :: Describes(g, children[i].1, children[i].0.node)
  }

  // ---------------------------------------------------------------- why building fails

  ghost predicate Mentioned(g: Graph, scope: set<nat>, ref: Raw) {
    exists id | id in scope :: NodeMentions(g, id, ref)
  }

  /** Each error has its cause among the schemas of the set. */
  ghost predicate Explains(g: Graph, named: set<nat>, scope: set<nat>, error: BuildError) {
    match error
    case BadName(e) => exists s: string :: Mentioned(g, scope, RText(s)) && NameFromRef(s, g.components.Keys) == Err(e)
    case RefNotText => exists ref :: Mentioned(g, scope, ref) && !ref.RText?
    case AnonymousRecursion => exists id | id in scope :: Leads(g, id, id) && id !in named
    case RefToBoolean =>
      exists s: string :: Mentioned(g, scope, RText(s))
        && var name := NameFromRef(s, g.components.Keys);
           name.Ok? && g.components[name.value] < |g.nodes| && g.nodes[g.components[name.value]].boolean.Some?
  }

  /** The siblings of a reference, their older keywords rewritten. */
  function Normalized(entries: map<string, Raw>, siblings: map<string, Out>): map<string, Out> {
    map k | k in siblings.Keys + Modern(entries).Keys && (k in DIALECT_KEYS ==> k in Modern(entries)) ::
      if k in DIALECT_KEYS || k !in siblings then OutCopy(Modern(entries)[k]) else siblings[k]
  }

  // ---------------------------------------------------------------- the builder

  class DocumentBuilder {
    const graph: Graph
    const namesById: map<nat, string>
    /** Any closed set of schemas that holds the selected ones. */
    ghost const scope: set<nat>
    var built: map<string, Out>
    var pending: set<string>
    var activeRaw: set<string>

    /** The parsed graph is closed, and identities name the components they belong to. */
    ghost predicate Parsed() {
      && (forall n | n in graph.components :: graph.components[n] < |graph.nodes|)
      && (forall id | id in namesById :: namesById[id] in graph.components && graph.components[namesById[id]] == id)
      && ClosedScope(graph, scope)
    }

    ghost function Names(): set<string>
      reads this
    {
      built.Keys + pending
    }

    ghost predicate Valid()
      reads this
    {
      && Parsed() && Names() <= graph.components.Keys && activeRaw <= graph.components.Keys
      && (forall n | n in Names() :: Wanted(graph, scope, n))
      && EntriesResolved(built, Names()) && ComponentsDescribe(graph, built)
    }

    ghost function Unbuilt(): nat
      reads this
    {
      |graph.components.Keys - Names()|
    }

    ghost function InactiveRaw(): nat
      reads this
    {
      |graph.components.Keys - activeRaw|
    }

    constructor (graph: Graph, names: seq<string>, ghost scope: set<nat>)
      requires (forall n | n in names :: n in graph.components) && ClosedScope(graph, scope)
      requires forall n | n in graph.components :: graph.components[n] < |graph.nodes|
      ensures Valid() && built == map[] && pending == {} && activeRaw == {}
      ensures this.graph == graph && this.scope == scope
      ensures forall id | id in namesById :: namesById[id] in graph.components && graph.components[namesById[id]] == id
    {
      this.graph := graph;
      this.namesById := NamesById(names, graph.components);
      this.scope := scope;
      built, pending, activeRaw := map[], {}, {};
    }

    ghost predicate Explained(error: BuildError) {
      Explains(graph, namesById.Keys, scope, error)
    }

    /** A successful step restores what is open and never loses a finished component. */
    twostate predicate Steady()
      reads this
    {
      && Valid() && pending == old(pending) && activeRaw == old(activeRaw) && old(Names()) <= Names()
      && Unbuilt() <= old(Unbuilt()) && InactiveRaw() == old(InactiveRaw())
    }

    method SerializeSchema(id: nat, active: set<nat>) returns (r: Result<Out, BuildError>)
      requires Valid() && Inside(graph, scope, activeRaw, id) && forall a | a in active :: Leads(graph, a, id)
      modifies this
      ensures r.Ok? ==> Steady() && Resolved(r.value, Names()) && Describes(graph, r.value, id)
      ensures r.Ok? && IsPlain(graph, id) && id !in active ==> r.value.OutSchema?
      ensures r.Err? ==> Explained(r.error)
      decreases Unbuilt(), InactiveRaw(), 2 + |All(|graph.nodes|) - active|, 1
    {
      hide Valid, Unbuilt, InactiveRaw, Names, All, Resolved, EntriesResolved, ChildrenResolved, NameFromRef, Mentioned,
           OwnDescribes, InlinedDescribes, Inside, Leads, Wanted;
      InScope(id);
      var node := graph.nodes[id];
      if node.refPath.Some? {
        RefLeads(id, node.refPath.value);
        var name := NameFromRef(node.refPath.value, graph.components.Keys);
        if name.Err? { return Err(BadName(name.error)); }
        RefPathWanted(id, name.value);
        r := ReferTo(name.value);
        return;
      }
      if node.boolean.Some? {
        BoolResolved(node.boolean.value, Names());
        return Ok(OutBool(node.boolean.value));
      }
      if id in active {
        if id !in namesById { return Err(AnonymousRecursion); }
        RecursiveWanted(id);
        r := ReferTo(namesById[id]);
        return;
      }
      OneFewer(All(|graph.nodes|), active, id);
      var extras := RawExtras(id, node.raw);
      if extras.Err? { return Err(extras.error); }
      ghost var before := Names();
      var children := SerializeChildren(node.children, id, active + {id});
      if children.Err? { return Err(children.error); }
      ResolvedMore(extras.value, before, Names());
      SchemaResolved(extras.value, children.value, Names());
      r := Ok(OutSchema(extras.value.inlined, extras.value.own, children.value));
      SchemaDescribes(graph, extras.value, r.value, id);
    }

    method SerializeChildren(list: seq<Child>, id: nat, active: set<nat>)
      returns (r: Result<seq<(Child, Out)>, BuildError>)
      requires Valid() && Inside(graph, scope, activeRaw, id) && IsPlain(graph, id) && list == graph.nodes[id].children
      requires forall a | a in active :: AtOrLeads(graph, a, id)
      modifies this
      ensures r.Ok? ==> Steady() && ChildrenResolved(r.value, Names()) && ChildrenDescribe(graph, r.value)
      ensures r.Ok? ==> |r.value| == |list| && forall i | 0 <= i < |list| :: r.value[i].0 == list[i]
      ensures r.Err? ==> Explained(r.error)
      decreases Unbuilt(), InactiveRaw(), 2 + |All(|graph.nodes|) - active|, 2
    {
      hide Valid, Unbuilt, InactiveRaw, Names, All, Resolved, ChildrenResolved, Describes, Inside, Leads, IsPlain;
      var done: seq<(Child, Out)> := [];
      NoChildren(Names());
      for i := 0 to |list|
        invariant Steady() && ChildrenResolved(done, Names()) && ChildrenDescribe(graph, done)
        invariant |done| == i && forall k | 0 <= k < i :: done[k].0 == list[k]
      {
        ChildInside(id, i, active);
        ghost var before := Names();
        var child := SerializeSchema(list[i].node, active);
        if child.Err? { return Err(child.error); }
        ChildrenResolvedMore(done, before, Names());
        OneMoreChild(done, list[i], child.value, Names());
        done := done + [(list[i], child.value)];
      }
      return Ok(done);
    }

    /** What the raw dictionary adds beyond the modelled keywords: a schema without children. */
    method RawExtras(id: nat, raw: map<string, Raw>) returns (r: Result<Out, BuildError>)
      requires Valid() && Inside(graph, scope, activeRaw, id) && IsPlain(graph, id) && raw == graph.nodes[id].raw
      modifies this
      ensures r.Ok? ==> Steady() && r.value.OutSchema? && r.value.children == [] && Resolved(r.value, Names())
      ensures r.Ok? ==> OwnDescribes(graph, r.value, raw) && InlinedDescribes(graph, r.value, raw)
      ensures r.Err? ==> Explained(r.error)
      decreases Unbuilt(), InactiveRaw(), 1, RDict(raw), 4
    {
      hide Valid, Unbuilt, InactiveRaw, Names, Resolved, EntriesResolved, IsModeled, KeywordDescribes, KeywordOf,
           NodeMentions, NameFromRef, Inlines, Explained, Inside;
      var inlined: Option<Out> := None;
      var rawRef := TopRef(raw);
      if rawRef != RNull {
        TopRefMentioned(id);
        if !rawRef.RText? { return Err(RefNotText); }
        var resolved := ResolveRawSchemaRef(id, rawRef.text);
        if resolved.Err? { return Err(resolved.error); }
        if resolved.value.OutBool? {
          Booleans(id, rawRef.text, resolved.value);
          return Err(RefToBoolean);
        }
        inlined := Some(resolved.value);
      }
      ghost var before := Names();
      forall k | k in OwnKeys(raw) ensures KeywordOf(graph, id, k, raw[k]) { NodeKeywordOf(graph, id, k); }
      var own := NormalizeKeywords(id, raw, OwnKeys(raw));
      if own.Err? { return Err(own.error); }
      if inlined.Some? { ResolvedMore(inlined.value, before, Names()); }
      r := Ok(OutSchema(inlined, own.value, []));
      ExtrasResolved(inlined, own.value, Names());
    }

    /** The values of the given keywords. */
    method NormalizeKeywords(ghost owner: nat, raw: map<string, Raw>, keys: set<string>)
      returns (r: Result<map<string, Out>, BuildError>)
      requires Valid() && Inside(graph, scope, activeRaw, owner)
      requires keys <= raw.Keys && forall k | k in keys :: KeywordOf(graph, owner, k, raw[k])
      modifies this
      ensures r.Ok? ==> Steady() && r.value.Keys == keys && EntriesResolved(r.value, Names())
      ensures r.Ok? ==> forall k | k in keys :: KeywordDescribes(graph, k, raw[k], r.value[k])
      ensures r.Err? ==> Explained(r.error)
      decreases Unbuilt(), InactiveRaw(), 1, RDict(raw), 0
    {
      hide Valid, Unbuilt, InactiveRaw, Names, Resolved, EntriesResolved, KeywordDescribes, KeywordOf, Explained,
           Inside;
      var done: map<string, Out> := map[];
      NoEntries(Names());
      var todo := keys;
      while todo != {}
        invariant Steady() && EntriesResolved(done, Names()) && todo <= keys && done.Keys == keys - todo
        invariant forall k | k in done :: KeywordDescribes(graph, k, raw[k], done[k])
        decreases |todo|
      {
        var key :| key in todo;
        ghost var before := Names();
        EntrySmaller(raw, key);
        var item := NormalizeKeyword(owner, key, raw[key]);
        if item.Err? { return Err(item.error); }
        EntriesResolvedMore(done, before, Names());
        OneMoreEntry(done, key, item.value, Names());
        done, todo := done[key := item.value], todo - {key};
      }
      return Ok(done);
    }

    method NormalizeKeyword(ghost owner: nat, key: string, value: Raw) returns (r: Result<Out, BuildError>)
      requires Valid() && Inside(graph, scope, activeRaw, owner) && KeywordOf(graph, owner, key, value)
      modifies this
      ensures r.Ok? ==> Steady() && Resolved(r.value, Names()) && KeywordDescribes(graph, key, value, r.value)
      ensures r.Err? ==> Explained(r.error)
      decreases Unbuilt(), InactiveRaw(), 1, value, 3
    {
      hide Valid, Unbuilt, InactiveRaw, Names, Resolved, SINGLE_KEYS, ARRAY_KEYS, MAP_KEYS, NodeMentions, Follows,
           Explained, Inside, ItemsDescribe, NamesDescribe, RawDescribes;
      CopyResolved(value, Names());
      if key in SINGLE_KEYS {
        r := NormalizeRawSchema(owner, value);
      } else if key in ARRAY_KEYS {
        if !value.RList? { return Ok(OutCopy(value)); }
        r := NormalizeItems(owner, value);
      } else if key in MAP_KEYS {
        if !value.RDict? { return Ok(OutCopy(value)); }
        r := NormalizeEntries(owner, value, false);
      } else if key == "items" {
        if value.RList? {
          r := NormalizeItems(owner, value);
        } else {
          r := NormalizeRawSchema(owner, value);
        }
      } else if key == "dependencies" && value.RDict? {
        r := NormalizeEntries(owner, value, true);
      } else {
        r := Ok(OutCopy(value));
      }
    }

    method NormalizeItems(ghost owner: nat, value: Raw) returns (r: Result<Out, BuildError>)
      requires Valid() && Inside(graph, scope, activeRaw, owner)
      requires value.RList? && forall i | 0 <= i < |value.items| :: RawOf(graph, owner, value.items[i])
      modifies this
      ensures r.Ok? ==> Steady() && Resolved(r.value, Names()) && ItemsDescribe(graph, value, r.value)
      ensures r.Err? ==> Explained(r.error)
      decreases Unbuilt(), InactiveRaw(), 1, value, 2
    {
      hide Valid, Unbuilt, InactiveRaw, Names, Resolved, AllResolved, RawDescribes, RawOf, Inside;
      var done: seq<Out> := [];
      NoItems(Names());
      for i := 0 to |value.items|
        invariant Steady() && AllResolved(done, Names())
        invariant |done| == i && forall k | 0 <= k < i :: RawDescribes(graph, value.items[k], done[k])
      {
        ghost var before := Names();
        var item := NormalizeRawSchema(owner, value.items[i]);
        if item.Err? { return Err(item.error); }
        AllResolvedMore(done, before, Names());
        OneMoreItem(done, item.value, Names());
        done := done + [item.value];
      }
      ListResolved(done, Names());
      return Ok(OutList(done));
    }

    /** The schemas of a keyword that maps names to schemas; `dependencies` also maps names to plain lists. */
    method NormalizeEntries(ghost owner: nat, value: Raw, mixed: bool) returns (r: Result<Out, BuildError>)
      requires Valid() && Inside(graph, scope, activeRaw, owner)
      requires value.RDict? && forall n | n in value.entries :: RawOf(graph, owner, value.entries[n])
      modifies this
      ensures r.Ok? ==> Steady() && Resolved(r.value, Names()) && NamesDescribe(graph, value, r.value)
      ensures r.Err? ==> Explained(r.error)
      decreases Unbuilt(), InactiveRaw(), 1, value, 2
    {
      hide Valid, Unbuilt, InactiveRaw, Names, Resolved, EntriesResolved, RawDescribes, RawOf, Inside;
      var done: map<string, Out> := map[];
      NoEntries(Names());
      var todo := value.entries.Keys;
      while todo != {}
        invariant Steady() && EntriesResolved(done, Names())
        invariant todo <= value.entries.Keys && done.Keys == value.entries.Keys - todo
        invariant forall k | k in done :: RawDescribes(graph, value.entries[k], done[k])
        decreases |todo|
      {
        var key :| key in todo;
        var entry := value.entries[key];
        ghost var before := Names();
        EntrySmaller(value.entries, key);
        CopyResolved(entry, Names());
        CopyDescribes(graph, entry);
        var item := Ok(OutCopy(entry));
        if !mixed || entry.RDict? || entry.RBool? {
          item := NormalizeRawSchema(owner, entry);
        }
        if item.Err? { return Err(item.error); }
        EntriesResolvedMore(done, before, Names());
        OneMoreEntry(done, key, item.value, Names());
        done, todo := done[key := item.value], todo - {key};
      }
      NamesResolved(done, Names());
      return Ok(OutNames(done));
    }

    method NormalizeRawSchema(ghost owner: nat, value: Raw) returns (r: Result<Out, BuildError>)
      requires Valid() && Inside(graph, scope, activeRaw, owner) && RawOf(graph, owner, value)
      modifies this
      ensures r.Ok? ==> Steady() && Resolved(r.value, Names()) && RawDescribes(graph, value, r.value)
      ensures r.Err? ==> Explained(r.error)
      decreases Unbuilt(), InactiveRaw(), 1, value, 1
    {
      hide Valid, Unbuilt, InactiveRaw, Names, Resolved, EntriesResolved, Normalized, Modern, DIALECT_KEYS,
           KeywordDescribes, KeywordFollows, NodeMentions, NameFromRef, Inlines, Explained, SiblingsDescribe,
           NoSiblings, Inside;
      CopyResolved(value, Names());
      CopyDescribes(graph, value);
      if !value.RDict? { return Ok(OutCopy(value)); }
      forall k | k in value.entries && k != "$ref" ensures KeywordOf(graph, owner, k, value.entries[k]) {
        EntryKeywordOf(graph, owner, value, k);
      }
      var siblings := NormalizeKeywords(owner, value.entries, value.entries.Keys - {"$ref"});
      if siblings.Err? { return Err(siblings.error); }
      SiblingsRewritten(graph, value.entries, siblings.value, Names());
      var normalized := Normalized(value.entries, siblings.value);
      DictResolved(normalized, Names());
      var rawRef := TopRef(value.entries);
      if rawRef == RNull { return Ok(OutDict(normalized)); }
      NotTextMentioned(owner, value);
      if !rawRef.RText? { return Err(RefNotText); }
      ghost var before := Names();
      var resolved := ResolveRawSchemaRef(owner, rawRef.text);
      if resolved.Err? { return Err(resolved.error); }
      if normalized == map[] { return resolved; }
      ResolvedMore(OutDict(normalized), before, Names());
      JoinedResolved(resolved.value, OutDict(normalized), Names());
      return Ok(OutJoined(resolved.value, OutDict(normalized)));
    }

    /** Inline the named component, or refer to it when it is being inlined already. */
    method ResolveRawSchemaRef(ghost owner: nat, refPath: string) returns (r: Result<Out, BuildError>)
      requires Valid() && Inside(graph, scope, activeRaw, owner) && NodeMentions(graph, owner, RText(refPath))
      modifies this
      ensures r.Ok? ==> Steady() && Resolved(r.value, Names())
      ensures r.Ok? ==>
                var name := NameFromRef(refPath, graph.components.Keys); name.Ok? && Inlines(graph, r.value, name.value)
      ensures r.Err? ==> Explained(r.error)
      decreases Unbuilt(), InactiveRaw(), 0, 2
    {
      hide Valid, Unbuilt, InactiveRaw, Resolved, Describes, NodeMentions, Explained, NameFromRef, Inside, Leads,
           Wanted;
      RefLeads(owner, refPath);
      var name := NameFromRef(refPath, graph.components.Keys);
      if name.Err? { return Err(BadName(name.error)); }
      if name.value in activeRaw {
        InlinedWanted(owner, name.value);
        r := ReferTo(name.value);
        return;
      }
      ghost var before := activeRaw;
      InliningInside(name.value);
      OpenRaw(name.value);
      r := SerializeSchema(graph.components[name.value], {});
      if r.Err? { return; }
      CloseRaw(name.value);
      assert activeRaw == before;
    }

    method OpenRaw(name: string)
      requires Valid() && name in graph.components && name !in activeRaw
      modifies this`activeRaw
      ensures Valid() && activeRaw == old(activeRaw) + {name} && pending == old(pending) && Names() == old(Names())
      ensures Unbuilt() == old(Unbuilt()) && InactiveRaw() == old(InactiveRaw()) - 1
    {
      hide EntriesResolved, ComponentsDescribe, ClosedScope, Referenced, Recursive;
      assert graph.components.Keys - (activeRaw + {name}) == (graph.components.Keys - activeRaw) - {name};
      activeRaw := activeRaw + {name};
    }

    method CloseRaw(name: string)
      requires Valid() && name in activeRaw
      modifies this`activeRaw
      ensures Valid() && activeRaw == old(activeRaw) - {name} && pending == old(pending) && Names() == old(Names())
      ensures Unbuilt() == old(Unbuilt()) && InactiveRaw() == old(InactiveRaw()) + 1
    {
      hide EntriesResolved, ComponentsDescribe, ClosedScope, Referenced, Recursive;
      assert graph.components.Keys - (activeRaw - {name}) == (graph.components.Keys - activeRaw) + {name};
      activeRaw := activeRaw - {name};
    }

    method ReferTo(name: string) returns (r: Result<Out, BuildError>)
      requires Valid() && Wanted(graph, scope, name) && Inside(graph, scope, activeRaw, graph.components[name])
      modifies this
      ensures r.Ok? ==> Steady() && r.value == OutRef(name) && Resolved(r.value, Names())
      ensures r.Err? ==> Explained(r.error)
      decreases Unbuilt(), InactiveRaw(), 0, 1
    {
      hide Valid, Unbuilt, InactiveRaw, Explained, Inside, Referenced, Recursive;
      var error := EnsureSchemaComponent(name);
      if error.Some? { return Err(error.value); }
      return Ok(OutRef(name));
    }

    method EnsureSchemaComponent(name: string) returns (error: Option<BuildError>)
      requires Valid() && Wanted(graph, scope, name) && Inside(graph, scope, activeRaw, graph.components[name])
      modifies this
      ensures error.None? ==> Steady() && name in Names()
      ensures error.Some? ==> Explained(error.value)
      decreases Unbuilt(), InactiveRaw(), 0, 0
    {
      hide Valid, Unbuilt, InactiveRaw, Resolved, IsPlain, Describes, Explained, Inside, Referenced, Recursive;
      if name in built || name in pending { return None; }
      ghost var before := pending;
      Start(name);
      var serialized := SerializeSchema(graph.components[name], {});
      if serialized.Err? { return Some(serialized.error); }
      Finish(name, serialized.value);
      assert pending == before;
      return None;
    }

    method Start(name: string)
      requires Valid() && Wanted(graph, scope, name) && name !in Names()
      modifies this`pending
      ensures Valid() && pending == old(pending) + {name} && Names() == old(Names()) + {name}
      ensures Unbuilt() < old(Unbuilt()) && InactiveRaw() == old(InactiveRaw())
    {
      hide EntriesResolved, ComponentsDescribe, ClosedScope, Referenced, Recursive;
      OneFewer(graph.components.Keys, Names(), name);
      EntriesResolvedMore(built, Names(), Names() + {name});
      pending := pending + {name};
      assert Names() == old(Names()) + {name};
    }

    method Finish(name: string, serialized: Out)
      requires Valid() && name in pending && Resolved(serialized, Names())
      requires name in graph.components && Describes(graph, serialized, graph.components[name])
      requires IsPlain(graph, graph.components[name]) ==> serialized.OutSchema?
      modifies this`built, this`pending
      ensures Valid() && built == old(built)[name := serialized] && pending == old(pending) - {name}
      ensures Names() == old(Names()) && Unbuilt() == old(Unbuilt()) && InactiveRaw() == old(InactiveRaw())
    {
      hide EntriesResolved, Resolved, Describes, ClosedScope, IsPlain, Wanted;
      OneMoreEntry(built, name, serialized, Names());
      built := built[name := serialized];
      pending := pending - {name};
      assert Names() == old(Names());
    }

    lemma {:induction false} InScope(id: nat)
      requires Valid() && Inside(graph, scope, activeRaw, id)
      ensures id < |graph.nodes| && id in scope
    {
    }

    lemma {:induction false} RefLeads(id: nat, s: string)
      requires Valid() && Inside(graph, scope, activeRaw, id)
      requires NodeMentions(graph, id, RText(s))
      ensures var name := NameFromRef(s, graph.components.Keys);
              if name.Err? then Explained(BadName(name.error))
              else name.value in graph.components && NamesNode(graph, RText(s), graph.components[name.value])
                   && Next(graph, id, graph.components[name.value])
                   && Inside(graph, scope, activeRaw, graph.components[name.value])
    {
      hide NodeMentions, Leads, EntriesResolved, ComponentsDescribe, Wanted, Inside;
      var name := NameFromRef(s, graph.components.Keys);
      InScope(id);
      assert Mentioned(graph, scope, RText(s));
      if name.Ok? {
        assert NamesNode(graph, RText(s), graph.components[name.value]);
        InsideNext(graph, scope, activeRaw, id, graph.components[name.value]);
      }
    }

    lemma {:induction false} RefPathWanted(id: nat, name: string)
      requires id in scope && id < |graph.nodes| && graph.nodes[id].refPath.Some?
      requires NameFromRef(graph.nodes[id].refPath.value, graph.components.Keys) == Ok(name)
      requires Inside(graph, scope, activeRaw, graph.components[name])
      ensures Wanted(graph, scope, name)
    {
    }

    lemma {:induction false} RecursiveWanted(id: nat)
      requires Valid() && id in namesById && id in scope && Leads(graph, id, id)
      ensures namesById[id] in graph.components && graph.components[namesById[id]] == id
      ensures Wanted(graph, scope, namesById[id])
    {
    }

    lemma {:induction false} InlinedWanted(owner: nat, name: string)
      requires Valid() && Inside(graph, scope, activeRaw, owner) && name in activeRaw && name in graph.components
      requires Next(graph, owner, graph.components[name])
      ensures Wanted(graph, scope, name)
    {
      hide Next, EntriesResolved, ComponentsDescribe;
      InsideNext(graph, scope, activeRaw, owner, graph.components[name]);
    }

    lemma {:induction false} InliningInside(name: string)
      requires name in graph.components && Inside(graph, scope, activeRaw, graph.components[name])
      ensures Inside(graph, scope, activeRaw + {name}, graph.components[name])
    {
    }

    lemma {:induction false} TopRefMentioned(id: nat)
      requires Inside(graph, scope, activeRaw, id) && IsPlain(graph, id) && TopRef(graph.nodes[id].raw) != RNull
      ensures NodeMentions(graph, id, TopRef(graph.nodes[id].raw))
      ensures !TopRef(graph.nodes[id].raw).RText? ==> Explained(RefNotText)
    {
    }

    lemma {:induction false} ChildInside(id: nat, k: nat, active: set<nat>)
      requires Valid() && Inside(graph, scope, activeRaw, id) && IsPlain(graph, id) && k < |graph.nodes[id].children|
      requires forall a | a in active :: AtOrLeads(graph, a, id)
      ensures Inside(graph, scope, activeRaw, graph.nodes[id].children[k].node)
      ensures forall a | a in active :: Leads(graph, a, graph.nodes[id].children[k].node)
    {
      hide Leads, EntriesResolved, ComponentsDescribe, Wanted, Inside;
      var child := graph.nodes[id].children[k].node;
      assert Next(graph, id, child);
      InsideNext(graph, scope, activeRaw, id, child);
      forall a | a in active ensures Leads(graph, a, child) { LeadsOn(graph, a, id, child); }
    }

    lemma {:induction false} Booleans(id: nat, s: string, o: Out)
      requires Inside(graph, scope, activeRaw, id) && NodeMentions(graph, id, RText(s)) && o.OutBool?
      requires NameFromRef(s, graph.components.Keys).Ok?
      requires Inlines(graph, o, NameFromRef(s, graph.components.Keys).value)
      ensures Explained(RefToBoolean)
    {
      hide NameFromRef, NodeMentions;
      assert Mentioned(graph, scope, RText(s));
      assert Describes(graph, o, graph.components[NameFromRef(s, graph.components.Keys).value]);
    }

    lemma {:induction false} NotTextMentioned(owner: nat, value: Raw)
      requires Inside(graph, scope, activeRaw, owner) && RawOf(graph, owner, value)
      requires value.RDict? && TopRef(value.entries) != RNull
      ensures NodeMentions(graph, owner, TopRef(value.entries))
      ensures !TopRef(value.entries).RText? ==> Explained(RefNotText)
    {
      assert Follows(value, TopRef(value.entries));
    }

    lemma {:induction false} NothingOpen()
      requires Valid() && pending == {}
      ensures Names() == built.Keys && EntriesResolved(built, built.Keys) && ComponentsDescribe(graph, built)
      ensures forall n | n in built :: Wanted(graph, scope, n)
    {
      hide EntriesResolved, Wanted, ComponentsDescribe;
      assert Names() == built.Keys;
    }

    /**
     Serialise the schemas of the selected operations. On success every component reference names a component of the
     document, each selected schema and each component is described, and a component is copied only if it is reached and
     is referenced by a parsed schema or recursive.
     */
    method Build(roots: seq<nat>) returns (r: Result<seq<Out>, BuildError>)
      requires Valid() && pending == {} && activeRaw == {} && forall i | 0 <= i < |roots| :: roots[i] in scope
      modifies this
      ensures r.Ok? ==> IsDocument(graph, roots, r.value, built)
      ensures r.Ok? ==> forall n | n in built :: Wanted(graph, scope, n)
      ensures r.Err? ==> Explained(r.error)
    {
      hide EntriesResolved, AllResolved, Resolved, Describes, IsPlain, ClosedScope, Explained, Wanted, Inside, Valid,
           Names;
      var done: seq<Out> := [];
      NoItems(Names());
      for i := 0 to |roots|
        invariant Valid() && pending == {} && activeRaw == {} && |done| == i && AllResolved(done, Names())
        invariant forall k | 0 <= k < i ::
            Describes(graph, done[k], roots[k]) && (IsPlain(graph, roots[k]) ==> done[k].OutSchema?)
      {
        ghost var before := Names();
        NothingInlined(graph, scope, roots[i]);
        var item := SerializeSchema(roots[i], {});
        if item.Err? { return Err(item.error); }
        AllResolvedMore(done, before, Names());
        OneMoreItem(done, item.value, Names());
        done := done + [item.value];
      }
      NothingOpen();
      return Ok(done);
    }
  }

  /** A finished document: its component references are resolved, and every part describes its schema. */
  ghost predicate IsDocument(g: Graph, roots: seq<nat>, outs: seq<Out>, built: map<string, Out>) {
    && |outs| == |roots| && AllResolved(outs, built.Keys) && EntriesResolved(built, built.Keys)
    && (forall i | 0 <= i < |roots| :: Describes(g, outs[i], roots[i]) && (IsPlain(g, roots[i]) ==> outs[i].OutSchema?))
    && ComponentsDescribe(g, built)
  }

  // ---------------------------------------------------------------- small facts

  /** Later names win when one schema object has several. */
  function NamesById(names: seq<string>, components: map<string, nat>): (r: map<nat, string>)
    requires forall n | n in names :: n in components
    ensures forall id | id in r :: r[id] in components && components[r[id]] == id
    ensures forall n | n in names :: components[n] in r
  {
    if names == [] then map[]
    else NamesById(names[..|names| - 1], components)[components[names[|names| - 1]] := names[|names| - 1]]
  }

  lemma {:induction false} EntrySmaller(entries: map<string, Raw>, key: string)
    requires key in entries
    ensures RDict(entries) decreases to entries[key]
  {
  }

  lemma {:induction false} CopyDescribes(g: Graph, value: Raw)
    ensures !value.RDict? ==> RawDescribes(g, value, OutCopy(value))
  {
  }

  lemma {:induction false} SchemaDescribes(g: Graph, extras: Out, o: Out, id: nat)
    requires IsPlain(g, id) && extras.OutSchema? && o.OutSchema? && o.inlined == extras.inlined && o.own == extras.own
    requires OwnDescribes(g, extras, g.nodes[id].raw) && InlinedDescribes(g, extras, g.nodes[id].raw)
    requires |o.children| == |g.nodes[id].children| && ChildrenDescribe(g, o.children)
    requires forall i | 0 <= i < |o.children| :: o.children[i].0 == g.nodes[id].children[i]
    ensures Describes(g, o, id)
  {
    hide KeywordDescribes, Inlines, NameFromRef;
    assert OwnDescribes(g, o, g.nodes[id].raw);
    assert InlinedDescribes(g, o, g.nodes[id].raw);
  }

  /** The siblings are described, and none is left exactly when there was nothing to keep. */
  lemma {:induction false} SiblingsRewritten(g: Graph, entries: map<string, Raw>, siblings: map<string, Out>,
                                             names: set<string>)
    requires siblings.Keys == entries.Keys - {"$ref"} && EntriesResolved(siblings, names)
    requires forall k | k in siblings :: KeywordDescribes(g, k, entries[k], siblings[k])
    ensures EntriesResolved(Normalized(entries, siblings), names)
    ensures SiblingsDescribe(g, entries, OutDict(Normalized(entries, siblings)))
    ensures Normalized(entries, siblings) == map[] <==> NoSiblings(entries)
  {
    hide Modern, KeywordDescribes, Resolved, DIALECT_KEYS;
    ModernKeys(entries);
    var normalized := Normalized(entries, siblings);
    forall k | k in normalized ensures Resolved(normalized[k], names) {
      if k in DIALECT_KEYS { CopyResolved(Modern(entries)[k], names); }
    }
    assert forall k | k in Modern(entries) :: k in normalized;
    assert forall k | k in entries && k != "$ref" && k !in DIALECT_KEYS :: k in normalized;
  }

  lemma {:induction false} BoolResolved(b: bool, names: set<string>)
    ensures Resolved(OutBool(b), names)
  {
  }

  lemma {:induction false} CopyResolved(value: Raw, names: set<string>)
    ensures Resolved(OutCopy(value), names)
  {
  }

  lemma {:induction false} NoChildren(names: set<string>)
    ensures ChildrenResolved([], names)
  {
  }

  lemma {:induction false} NoEntries(names: set<string>)
    ensures EntriesResolved(map[], names)
  {
  }

  lemma {:induction false} NoItems(names: set<string>)
    ensures AllResolved([], names)
  {
  }

  lemma {:induction false} OneMoreChild(children: seq<(Child, Out)>, child: Child, o: Out, names: set<string>)
    requires ChildrenResolved(children, names) && Resolved(o, names)
    ensures ChildrenResolved(children + [(child, o)], names)
  {
  }

  lemma {:induction false} OneMoreEntry(entries: map<string, Out>, key: string, o: Out, names: set<string>)
    requires EntriesResolved(entries, names) && Resolved(o, names)
    ensures EntriesResolved(entries[key := o], names)
  {
  }

  lemma {:induction false} OneMoreItem(items: seq<Out>, o: Out, names: set<string>)
    requires AllResolved(items, names) && Resolved(o, names)
    ensures AllResolved(items + [o], names)
  {
  }

  lemma {:induction false} ListResolved(items: seq<Out>, names: set<string>)
    requires AllResolved(items, names)
    ensures Resolved(OutList(items), names)
  {
  }

  lemma {:induction false} NamesResolved(entries: map<string, Out>, names: set<string>)
    requires EntriesResolved(entries, names)
    ensures Resolved(OutNames(entries), names)
  {
  }

  lemma {:induction false} DictResolved(entries: map<string, Out>, names: set<string>)
    requires EntriesResolved(entries, names)
    ensures Resolved(OutDict(entries), names)
  {
  }

  lemma {:induction false} JoinedResolved(resolved: Out, siblings: Out, names: set<string>)
    requires Resolved(resolved, names) && Resolved(siblings, names)
    ensures Resolved(OutJoined(resolved, siblings), names)
  {
  }

  lemma {:induction false} ExtrasResolved(inlined: Option<Out>, own: map<string, Out>, names: set<string>)
    requires EntriesResolved(own, names) && (inlined.Some? ==> Resolved(inlined.value, names))
    ensures Resolved(OutSchema(inlined, own, []), names)
  {
  }

  lemma {:induction false} SchemaResolved(extras: Out, children: seq<(Child, Out)>, names: set<string>)
    requires extras.OutSchema? && Resolved(extras, names) && ChildrenResolved(children, names)
    ensures Resolved(OutSchema(extras.inlined, extras.own, children), names)
  {
  }
}
