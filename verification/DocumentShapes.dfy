/** Serialised schemas, and what they say about the schema graph (restscope/openapi_parser/document_builder.py). */
module DocumentShapes {
  import opened Wrappers
  import opened ComponentNames
  import opened RawSchemas

  /** A child under a keyword such as `properties` or `allOf`. */
  datatype Child = Child(keyword: string, name: string, node: nat)

  /** `children` are listed in serialisation order; plain keyword values are not modelled. */
  datatype SchemaNode = SchemaNode(refPath: Option<string>, boolean: Option<bool>, raw: map<string, Raw>,
    children: seq<Child>)

  datatype Graph = Graph(nodes: seq<SchemaNode>, components: map<string, nat>)

  /**
   Serialised schemas. `OutRef` is a reference to a component, `OutCopy` a value copied as it is, `OutDict` a raw schema
   rebuilt, `OutJoined` an `allOf` of an inlined schema and the siblings of its reference, `OutNames` schemas by name.
   Of `inlined`, an `OutSchema` emits only what is neither modelled nor among its own keywords.
   */
  datatype Out =
    | OutRef(component: string)
    | OutBool(b: bool)
    | OutCopy(raw: Raw)
    | OutList(items: seq<Out>)
    | OutNames(byName: map<string, Out>)
    | OutDict(entries: map<string, Out>)
    | OutJoined(resolved: Out, siblings: Out)
    | OutSchema(inlined: Option<Out>, own: map<string, Out>, children: seq<(Child, Out)>)

  // ---------------------------------------------------------------- component references

  /** Every component reference in the result is one of the names. */
  ghost predicate Resolved(o: Out, names: set<string>) {
    match o
    case OutRef(component) => component in names
    case OutBool(_) => true
    case OutCopy(_) => true
    case OutList(items) => forall i | 0 <= i < |items| :: Resolved(items[i], names)
    case OutNames(byName) => forall k | k in byName :: Resolved(byName[k], names)
    case OutDict(entries) => forall k | k in entries :: Resolved(entries[k], names)
    case OutJoined(resolved, siblings) => Resolved(resolved, names) && Resolved(siblings, names)
    case OutSchema(inlined, own, children) =>
      && (inlined.Some? ==> Resolved(inlined.value, names))
      && (forall k | k in own :: Resolved(own[k], names))
      && (forall i | 0 <= i < |children| :: Resolved(children[i].1, names))
  }

  ghost predicate AllResolved(items: seq<Out>, names: set<string>) {
    forall i | 0 <= i < |items| :: Resolved(items[i], names)
  }

  ghost predicate EntriesResolved(entries: map<string, Out>, names: set<string>) {
    forall k | k in entries :: Resolved(entries[k], names)
  }

  ghost predicate ChildrenResolved(children: seq<(Child, Out)>, names: set<string>) {
    forall i | 0 <= i < |children| :: Resolved(children[i].1, names)
  }

  lemma {:induction false} ResolvedMore(o: Out, few: set<string>, more: set<string>)
    requires few <= more && Resolved(o, few)
    ensures Resolved(o, more)
  {
    match o
    case OutList(items) =>
      forall i | 0 <= i < |items| ensures Resolved(items[i], more) { ResolvedMore(items[i], few, more); }
    case OutNames(byName) =>
      forall k | k in byName ensures Resolved(byName[k], more) { ResolvedMore(byName[k], few, more); }
    case OutDict(entries) =>
      forall k | k in entries ensures Resolved(entries[k], more) { ResolvedMore(entries[k], few, more); }
    case OutJoined(resolved, siblings) =>
      ResolvedMore(resolved, few, more);
      ResolvedMore(siblings, few, more);
    case OutSchema(inlined, own, children) =>
      if inlined.Some? { ResolvedMore(inlined.value, few, more); }
      forall k | k in own ensures Resolved(own[k], more) { ResolvedMore(own[k], few, more); }
      forall i | 0 <= i < |children| ensures Resolved(children[i].1, more) { ResolvedMore(children[i].1, few, more); }
    case _ =>
  }

  lemma {:induction false} AllResolvedMore(items: seq<Out>, few: set<string>, more: set<string>)
    requires few <= more && AllResolved(items, few)
    ensures AllResolved(items, more)
  {
    hide Resolved;
    forall i | 0 <= i < |items| ensures Resolved(items[i], more) { ResolvedMore(items[i], few, more); }
  }

  lemma {:induction false} EntriesResolvedMore(entries: map<string, Out>, few: set<string>, more: set<string>)
    requires few <= more && EntriesResolved(entries, few)
    ensures EntriesResolved(entries, more)
  {
    hide Resolved;
    forall k | k in entries ensures Resolved(entries[k], more) { ResolvedMore(entries[k], few, more); }
  }

  lemma {:induction false} ChildrenResolvedMore(children: seq<(Child, Out)>, few: set<string>, more: set<string>)
    requires few <= more && ChildrenResolved(children, few)
    ensures ChildrenResolved(children, more)
  {
    hide Resolved;
    forall i | 0 <= i < |children| ensures Resolved(children[i].1, more) { ResolvedMore(children[i].1, few, more); }
  }

  // ---------------------------------------------------------------- what a result describes

  ghost predicate IsPlain(g: Graph, id: nat) {
    id < |g.nodes| && g.nodes[id].refPath.None? && g.nodes[id].boolean.None?
  }

  /**
   The result describes the schema node: a reference to its component, its boolean, or its raw keywords and its
   children one by one.
   */
  ghost predicate Describes(g: Graph, o: Out, id: nat)
    decreases o, 1
  {
    && id < |g.nodes|
    && match o
       case OutRef(component) =>
         if g.nodes[id].refPath.Some? then NameFromRef(g.nodes[id].refPath.value, g.components.Keys) == Ok(component)
         else IsPlain(g, id) && component in g.components && g.components[component] == id
       case OutBool(b) => g.nodes[id].refPath.None? && g.nodes[id].boolean == Some(b)
       case OutSchema(inlined, own, children) =>
         && IsPlain(g, id)
         && OwnDescribes(g, o, g.nodes[id].raw) && InlinedDescribes(g, o, g.nodes[id].raw)
         && |children| == |g.nodes[id].children|
         && forall i | 0 <= i < |children| ::
              children[i].0 == g.nodes[id].children[i] && Describes(g, children[i].1, children[i].0.node)
       case _ => false
  }

  /** Every unmodelled raw keyword is carried over. */
  ghost predicate OwnDescribes(g: Graph, o: Out, raw: map<string, Raw>)
    requires o.OutSchema?
    decreases o, 0
  {
    && o.own.Keys == OwnKeys(raw)
    && forall k | k in o.own :: KeywordDescribes(g, k, raw[k], o.own[k])
  }

  /** The component a raw reference beside a parsed schema names is inlined. */
  ghost predicate InlinedDescribes(g: Graph, o: Out, raw: map<string, Raw>)
    requires o.OutSchema?
    decreases o, 0
  {
    if TopRef(raw) == RNull then o.inlined.None?
    else
      && TopRef(raw).RText? && o.inlined.Some? && !o.inlined.value.OutBool?
      && var name := NameFromRef(TopRef(raw).text, g.components.Keys);
         name.Ok? && Inlines(g, o.inlined.value, name.value)
  }

  /** The result stands for the component: a reference to it or its serialised schema. */
  ghost predicate Inlines(g: Graph, o: Out, name: string)
    decreases o, 2
  {
    name in g.components && (o == OutRef(name) || Describes(g, o, g.components[name]))
  }

  /** In a schema position a dictionary is rebuilt keyword by keyword, and its reference is resolved. */
  ghost predicate RawDescribes(g: Graph, value: Raw, o: Out)
    decreases o, 3
  {
    if !value.RDict? then o == OutCopy(value)
    else if TopRef(value.entries) == RNull then o.OutDict? && SiblingsDescribe(g, value.entries, o)
    else
      && TopRef(value.entries).RText?
      && var name := NameFromRef(TopRef(value.entries).text, g.components.Keys);
         && name.Ok?
         && if NoSiblings(value.entries) then Inlines(g, o, name.value)
            else o.OutJoined? && o.siblings.OutDict? && SiblingsDescribe(g, value.entries, o.siblings)
                 && Inlines(g, o.resolved, name.value)
  }

  /** Nothing stands beside the reference once older keywords are rewritten. */
  ghost predicate NoSiblings(entries: map<string, Raw>) {
    (forall k | k in entries :: k == "$ref" || k in DIALECT_KEYS) && Modern(entries) == map[]
  }

  /** Keywords of the older dialect are rewritten, all others are kept one for one. */
  ghost predicate SiblingsDescribe(g: Graph, entries: map<string, Raw>, o: Out)
    requires o.OutDict?
    decreases o, 0
  {
    && (forall k | k in entries :: k == "$ref" || k in DIALECT_KEYS || k in o.entries)
    && (forall k | k in Modern(entries) :: k in o.entries)
    && (forall k | k in o.entries ::
          if k in DIALECT_KEYS then k in Modern(entries) && o.entries[k] == OutCopy(Modern(entries)[k])
          else k in entries && k != "$ref" && KeywordDescribes(g, k, entries[k], o.entries[k]))
  }

  /** A keyword holding schemas has them rebuilt, alone, in a list or by name; any other is copied. */
  ghost predicate KeywordDescribes(g: Graph, key: string, value: Raw, o: Out)
    decreases o, 4
  {
    match TreatmentOf(key, value)
    case OneSchema => RawDescribes(g, value, o)
    case SchemaList => ItemsDescribe(g, value, o)
    case SchemaMap => NamesDescribe(g, value, o)
    case Copied => o == OutCopy(value)
  }

  ghost predicate ItemsDescribe(g: Graph, value: Raw, o: Out)
    decreases o, 0
  {
    && value.RList? && o.OutList? && |o.items| == |value.items|
    && forall i | 0 <= i < |o.items| :: RawDescribes(g, value.items[i], o.items[i])
  }

  ghost predicate NamesDescribe(g: Graph, value: Raw, o: Out)
    decreases o, 0
  {
    && value.RDict? && o.OutNames? && o.byName.Keys == value.entries.Keys
    && forall k | k in o.byName :: RawDescribes(g, value.entries[k], o.byName[k])
  }

  // ---------------------------------------------------------------- references left as they were

  /** The result carries r as a raw reference in a schema position. */
  ghost predicate Survives(o: Out, r: string)
    decreases o, 2
  {
    match o
    case OutRef(_) => false
    case OutBool(_) => false
    case OutCopy(raw) => RefersTo(raw, r)
    case OutList(items) => exists i | 0 <= i < |items| :: Survives(items[i], r)
    case OutNames(byName) => exists k | k in byName :: Survives(byName[k], r)
    case OutDict(entries) => exists k | k in entries :: KeywordSurvives(k, entries[k], r)
    case OutJoined(resolved, siblings) => Survives(resolved, r) || Survives(siblings, r)
    case OutSchema(_, _, children) =>
      (exists i | 0 <= i < |children| :: Survives(children[i].1, r)) || ExtrasSurvive(o, {}, r)
  }

  ghost predicate KeywordSurvives(key: string, o: Out, r: string)
    decreases o, 3
  {
    if o.OutCopy? then KeywordRefersTo(key, o.raw, r) else Survives(o, r)
  }

  /** The same for what a schema emits beside its modelled keywords, outside the keys already taken. */
  ghost predicate ExtrasSurvive(o: Out, shadow: set<string>, r: string)
    decreases o, 1
  {
    o.OutSchema?
    && ((exists k | k in o.own :: k !in shadow && KeywordSurvives(k, o.own[k], r))
        || (o.inlined.Some? && ExtrasSurvive(o.inlined.value, shadow + o.own.Keys, r)))
  }

  lemma {:induction false} ExtrasShadow(o: Out, few: set<string>, more: set<string>, r: string)
    requires few <= more && ExtrasSurvive(o, more, r)
    ensures ExtrasSurvive(o, few, r)
    decreases o
  {
    if !(exists k | k in o.own :: k !in more && KeywordSurvives(k, o.own[k], r)) {
      ExtrasShadow(o.inlined.value, few + o.own.Keys, more + o.own.Keys, r);
    }
  }

  /** What a raw schema hides survives rebuilding it. */
  lemma {:induction false} HiddenSurvives(g: Graph, value: Raw, o: Out, r: string)
    requires RawDescribes(g, value, o) && Hides(value, r)
    ensures Survives(o, r)
    decreases value, 0
  {
    hide DIALECT_KEYS, Modern, Inlines;
    var k :| k in value.entries && k != "$ref" && KeywordHides(k, value.entries[k], r);
    KeywordFacts(k, value.entries[k]);
    var rebuilt := if o.OutJoined? then o.siblings else o;
    assert k !in DIALECT_KEYS;
    assert rebuilt.OutDict? && SiblingsDescribe(g, value.entries, rebuilt);
    KeywordHiddenSurvives(g, k, value.entries[k], rebuilt.entries[k], r);
  }

  lemma {:induction false} KeywordHiddenSurvives(g: Graph, key: string, value: Raw, o: Out, r: string)
    requires KeywordDescribes(g, key, value, o) && KeywordHides(key, value, r)
    ensures KeywordSurvives(key, o, r)
    decreases value, 1
  {
    hide SINGLE_KEYS, ARRAY_KEYS, MAP_KEYS, MODELED_KEYS;
    KeywordFacts(key, value);
    if !IsForgotten(key) {
      match TreatmentOf(key, value)
      case OneSchema => HiddenSurvives(g, value, o, r);
      case SchemaList =>
        var i :| 0 <= i < |value.items| && Hides(value.items[i], r);
        HiddenSurvives(g, value.items[i], o.items[i], r);
      case SchemaMap =>
        var n :| n in value.entries && Hides(value.entries[n], r);
        HiddenSurvives(g, value.entries[n], o.byName[n], r);
      case Copied =>
    }
  }

  /** Where a reference that is followed ended up: a part of the result that stands for its component. */
  lemma {:induction false} FollowedInlines(g: Graph, value: Raw, o: Out, s: string, names: set<string>)
    returns (part: Out)
    requires RawDescribes(g, value, o) && Follows(value, RText(s)) && Resolved(o, names)
    ensures NameFromRef(s, g.components.Keys).Ok? && Inlines(g, part, NameFromRef(s, g.components.Keys).value)
    ensures Resolved(part, names) && forall r | Survives(part, r) :: Survives(o, r)
    decreases value, 0
  {
    hide DIALECT_KEYS, Modern, Inlines, NameFromRef;
    if TopRef(value.entries) == RText(s) {
      part := if NoSiblings(value.entries) then o else o.resolved;
    } else {
      var k :| k in value.entries && k != "$ref" && KeywordFollows(k, value.entries[k], RText(s));
      KeywordFacts(k, value.entries[k]);
      assert k !in DIALECT_KEYS;
      var rebuilt := if o.OutJoined? then o.siblings else o;
      assert rebuilt.OutDict? && SiblingsDescribe(g, value.entries, rebuilt) && Resolved(rebuilt, names);
      part := KeywordFollowedInlines(g, k, value.entries[k], rebuilt.entries[k], s, names);
    }
  }

  lemma {:induction false} KeywordFollowedInlines(g: Graph, key: string, value: Raw, o: Out, s: string,
                                                  names: set<string>)
    returns (part: Out)
    requires KeywordDescribes(g, key, value, o) && KeywordFollows(key, value, RText(s)) && Resolved(o, names)
    ensures NameFromRef(s, g.components.Keys).Ok? && Inlines(g, part, NameFromRef(s, g.components.Keys).value)
    ensures Resolved(part, names) && forall r | Survives(part, r) :: KeywordSurvives(key, o, r)
    decreases value, 1
  {
    hide SINGLE_KEYS, ARRAY_KEYS, MAP_KEYS, MODELED_KEYS, Inlines, NameFromRef;
    KeywordFacts(key, value);
    match TreatmentOf(key, value)
    case OneSchema => part := FollowedInlines(g, value, o, s, names);
    case SchemaList =>
      var i :| 0 <= i < |value.items| && Follows(value.items[i], RText(s));
      part := FollowedInlines(g, value.items[i], o.items[i], s, names);
    case SchemaMap =>
      var n :| n in value.entries && Follows(value.entries[n], RText(s));
      part := FollowedInlines(g, value.entries[n], o.byName[n], s, names);
  }

  lemma {:induction false} DialectCarriesNothing(key: string, value: Raw, r: string)
    requires key in DIALECT_KEYS
    ensures !KeywordRefersTo(key, value, r)
  {
    KeywordFacts(key, value);
  }

  /** In a schema position only what is no dictionary is copied. */
  lemma {:induction false} CopiedOnlyValues(g: Graph, value: Raw, o: Out)
    requires RawDescribes(g, value, o) && o.OutCopy?
    ensures o.raw == value && !value.RDict?
  {
    hide Inlines, NameFromRef;
    if value.RDict? {
      var name := NameFromRef(TopRef(value.entries).text, g.components.Keys).value;
      if Inlines(g, o, name) { InlinedForm(g, o, name); }
    }
  }

  lemma {:induction false} InlinedForm(g: Graph, o: Out, name: string)
    requires Inlines(g, o, name)
    ensures o.OutRef? || o.OutBool? || o.OutSchema?
  {
    if o != OutRef(name) { assert Describes(g, o, g.components[name]); }
  }

  /** A surviving reference was hidden in the raw schema, or comes with a component that was inlined for it. */
  datatype Origin = FromHere | FromInlined(ref: string, part: Out)

  ghost predicate IsOrigin(g: Graph, origin: Origin, o: Out, r: string) {
    origin.FromInlined? ==>
      && NameFromRef(origin.ref, g.components.Keys).Ok?
      && Inlines(g, origin.part, NameFromRef(origin.ref, g.components.Keys).value)
      && Survives(origin.part, r) && (origin.part == o || origin.part < o)
  }

  lemma {:induction false} SurvivorOrigin(g: Graph, value: Raw, o: Out, r: string) returns (origin: Origin)
    requires RawDescribes(g, value, o) && Survives(o, r)
    ensures IsOrigin(g, origin, o, r)
    ensures if origin.FromHere? then Hides(value, r) else Follows(value, RText(origin.ref))
    decreases value, 0
  {
    hide DIALECT_KEYS, Modern, Inlines, NameFromRef;
    var top := TopRef(value.entries);
    if top.RText? && NoSiblings(value.entries) {
      origin := FromInlined(top.text, o);
    } else if o.OutJoined? && Survives(o.resolved, r) {
      origin := FromInlined(top.text, o.resolved);
    } else {
      var rebuilt := if o.OutJoined? then o.siblings else o;
      assert rebuilt.OutDict? && SiblingsDescribe(g, value.entries, rebuilt) && Survives(rebuilt, r);
      var k :| k in rebuilt.entries && KeywordSurvives(k, rebuilt.entries[k], r);
      if k in DIALECT_KEYS {
        DialectCarriesNothing(k, rebuilt.entries[k].raw, r);
      }
      origin := KeywordSurvivorOrigin(g, k, value.entries[k], rebuilt.entries[k], r);
    }
  }

  lemma {:induction false} KeywordSurvivorOrigin(g: Graph, key: string, value: Raw, o: Out, r: string)
    returns (origin: Origin)
    requires KeywordDescribes(g, key, value, o) && KeywordSurvives(key, o, r)
    ensures IsOrigin(g, origin, o, r)
    ensures if origin.FromHere? then KeywordHides(key, value, r) else KeywordFollows(key, value, RText(origin.ref))
    decreases value, 1
  {
    hide SINGLE_KEYS, ARRAY_KEYS, MAP_KEYS, MODELED_KEYS, Inlines, NameFromRef;
    KeywordFacts(key, value);
    match TreatmentOf(key, value)
    case OneSchema =>
      if o.OutCopy? { CopiedOnlyValues(g, value, o); }
      origin := SurvivorOrigin(g, value, o, r);
    case SchemaList =>
      var i :| 0 <= i < |o.items| && Survives(o.items[i], r);
      origin := SurvivorOrigin(g, value.items[i], o.items[i], r);
    case SchemaMap =>
      var n :| n in o.byName && Survives(o.byName[n], r);
      origin := SurvivorOrigin(g, value.entries[n], o.byName[n], r);
    case Copied => origin := FromHere;
  }
}
