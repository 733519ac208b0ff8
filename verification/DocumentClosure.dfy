/** Which references of a finished document lead nowhere (restscope/openapi_parser/document_builder.py). */
module DocumentClosure {
  import opened Wrappers
  import opened ComponentNames
  import opened RawSchemas
  import opened DocumentShapes
  import opened SchemaReach
  import opened DocumentBuilder

  /** What a successful build leaves: the selected schemas, serialised, and the components they need. */
  datatype Doc = Doc(input: Input, outs: seq<Out>, built: map<string, Out>)

  /** A parsed graph and the schemas selected from it. */
  datatype Input = Input(g: Graph, roots: seq<nat>)

  ghost predicate Finished(d: Doc) {
    IsDocument(d.input.g, d.input.roots, d.outs, d.built)
  }

  /** The document carries r as a raw reference in a schema position. */
  ghost predicate Carries(d: Doc, r: string) {
    (exists i | 0 <= i < |d.outs| :: Survives(d.outs[i], r)) || (exists n | n in d.built :: Survives(d.built[n], r))
  }

  /** The reference names a component of the document. */
  predicate LeadsHome(r: string, names: set<string>) {
    COMPONENTS <= r && NameFromRef(r, names).Ok?
  }

  /** References made by the builder and references left in copied values all name components of the document. */
  ghost predicate SelfContained(d: Doc) {
    && AllResolved(d.outs, d.built.Keys) && EntriesResolved(d.built, d.built.Keys)
    && forall r | Carries(d, r) :: LeadsHome(r, d.built.Keys)
  }

  // ---------------------------------------------------------------- where schemas are written

  /**
   A place where a schema is written out: a selected schema, a component, a child of a written schema, the target of a
   raw reference nested in its keywords, or the target of the raw reference beside it, of which only unmodelled keywords
   are written.
   */
  datatype Place = Root(index: nat) | Component(name: string) | Below(parent: Place, child: nat)
    | Nested(parent: Place, ref: string) | Beside(parent: Place)

  function TargetOf(g: Graph, ref: Raw): nat {
    if !ref.RText? then 0
    else var name := NameFromRef(ref.text, g.components.Keys); if name.Ok? then g.components[name.value] else 0
  }

  function RawAt(g: Graph, id: nat): map<string, Raw> {
    if id < |g.nodes| then g.nodes[id].raw else map[]
  }

  function NodeAt(input: Input, p: Place): nat {
    match p
    case Root(i) => if i < |input.roots| then input.roots[i] else 0
    case Component(name) => if name in input.g.components then input.g.components[name] else 0
    case Below(parent, child) =>
      var id := NodeAt(input, parent);
      if id < |input.g.nodes| && child < |input.g.nodes[id].children| then input.g.nodes[id].children[child].node else 0
    case Nested(_, ref) => TargetOf(input.g, RText(ref))
    case Beside(parent) => TargetOf(input.g, TopRef(RawAt(input.g, NodeAt(input, parent))))
  }

  /** Keywords of a schema beside its reference win over those of the target. */
  function Shadow(input: Input, p: Place): set<string> {
    if p.Beside? then Shadow(input, p.parent) + OwnKeys(RawAt(input.g, NodeAt(input, p.parent))) else {}
  }

  ghost predicate IsPlace(input: Input, names: set<string>, p: Place) {
    match p
    case Root(i) => i < |input.roots|
    case Component(name) => name in names && name in input.g.components
    case Below(parent, child) =>
      && IsPlace(input, names, parent) && IsPlain(input.g, NodeAt(input, parent)) && !parent.Beside?
      && child < |input.g.nodes[NodeAt(input, parent)].children|
    case Nested(parent, ref) =>
      && IsPlace(input, names, parent) && IsPlain(input.g, NodeAt(input, parent))
      && NodeFollows(RawAt(input.g, NodeAt(input, parent)), Shadow(input, parent), RText(ref))
    case Beside(parent) =>
      IsPlace(input, names, parent) && IsPlain(input.g, NodeAt(input, parent))
        && TopRef(RawAt(input.g, NodeAt(input, parent))) != RNull
  }

  /** At this place the raw part of a schema has r under `not` or `additionalProperties`. */
  ghost predicate HiddenAt(input: Input, names: set<string>, p: Place, r: string) {
    IsPlace(input, names, p) && IsPlain(input.g, NodeAt(input, p))
      && NodeHides(RawAt(input.g, NodeAt(input, p)), Shadow(input, p), r)
  }

  // ---------------------------------------------------------------- every place is written

  /** What is written at a place, all of which is in the document. */
  ghost predicate WrittenAt(d: Doc, p: Place, o: Out) {
    && o.OutSchema? && Describes(d.input.g, o, NodeAt(d.input, p)) && Resolved(o, d.built.Keys)
    && (forall r | ExtrasSurvive(o, Shadow(d.input, p), r) :: Carries(d, r))
    && (!p.Beside? ==> forall r | Survives(o, r) :: Carries(d, r))
  }

  /** Behind a reference to a component stands the finished component. */
  lemma {:induction false} StandsFor(d: Doc, part: Out, id: nat) returns (o: Out)
    requires Finished(d) && IsPlain(d.input.g, id) && Resolved(part, d.built.Keys)
    requires Describes(d.input.g, part, id)
    ensures o.OutSchema? && Describes(d.input.g, o, id) && Resolved(o, d.built.Keys)
    ensures o == part || (part.OutRef? && forall r | Survives(o, r) :: Carries(d, r))
  {
    hide OwnDescribes, InlinedDescribes, NameFromRef;
    o := if part.OutRef? then d.built[part.component] else part;
  }

  lemma {:induction false} InlinesDescribes(g: Graph, part: Out, name: string)
    requires Inlines(g, part, name) && IsPlain(g, g.components[name])
    ensures Describes(g, part, g.components[name])
  {
  }

  lemma {:induction false} ExtrasAreCarried(o: Out, r: string)
    requires ExtrasSurvive(o, {}, r)
    ensures Survives(o, r)
  {
  }

  lemma {:induction false} PlaceWritten(d: Doc, p: Place) returns (o: Out)
    requires Finished(d) && IsPlace(d.input, d.built.Keys, p) && IsPlain(d.input.g, NodeAt(d.input, p))
    ensures WrittenAt(d, p, o)
    decreases p
  {
    hide IsPlain, Survives, ExtrasSurvive, Describes, Resolved, Inlines, NodeFollows, KeywordFollows, NameFromRef,
         Finished;
    match p
    case Root(i) => o := RootWritten(d, i);
    case Component(name) => o := ComponentWritten(d, name);
    case Below(parent, child) =>
      var whole := PlaceWritten(d, parent);
      o := BelowWritten(d, parent, child, whole);
    case Nested(parent, ref) =>
      var whole := PlaceWritten(d, parent);
      o := NestedWritten(d, parent, ref, whole);
    case Beside(parent) =>
      var whole := PlaceWritten(d, parent);
      o := BesideWritten(d, parent, whole);
  }

  lemma {:induction false} RootWritten(d: Doc, i: nat) returns (o: Out)
    requires Finished(d) && i < |d.input.roots| && IsPlain(d.input.g, d.input.roots[i])
    ensures WrittenAt(d, Root(i), o)
  {
    hide Describes, Survives, ExtrasSurvive, Resolved, IsPlain;
    o := d.outs[i];
    forall r | ExtrasSurvive(o, {}, r) ensures Carries(d, r) { ExtrasAreCarried(o, r); }
  }

  lemma {:induction false} ComponentWritten(d: Doc, name: string) returns (o: Out)
    requires Finished(d) && name in d.built && name in d.input.g.components
    requires IsPlain(d.input.g, d.input.g.components[name])
    ensures WrittenAt(d, Component(name), o)
  {
    hide Describes, Survives, ExtrasSurvive, Resolved, IsPlain;
    o := d.built[name];
    forall r | ExtrasSurvive(o, {}, r) ensures Carries(d, r) { ExtrasAreCarried(o, r); }
  }

  lemma {:induction false} BelowWritten(d: Doc, parent: Place, child: nat, whole: Out) returns (o: Out)
    requires Finished(d) && IsPlace(d.input, d.built.Keys, Below(parent, child))
    requires IsPlain(d.input.g, NodeAt(d.input, Below(parent, child)))
    requires WrittenAt(d, parent, whole)
    ensures WrittenAt(d, Below(parent, child), o)
  {
    hide OwnDescribes, InlinedDescribes, ExtrasSurvive, Carries, Finished, NameFromRef;
    var part := whole.children[child].1;
    o := StandsFor(d, part, NodeAt(d.input, Below(parent, child)));
    forall r | Survives(part, r) ensures Carries(d, r) { assert Survives(whole, r); }
    forall r | ExtrasSurvive(o, {}, r) ensures Carries(d, r) { ExtrasAreCarried(o, r); }
  }

  lemma {:induction false} NestedWritten(d: Doc, parent: Place, ref: string, whole: Out) returns (o: Out)
    requires Finished(d) && IsPlace(d.input, d.built.Keys, Nested(parent, ref))
    requires IsPlain(d.input.g, NodeAt(d.input, Nested(parent, ref)))
    requires WrittenAt(d, parent, whole)
    ensures WrittenAt(d, Nested(parent, ref), o)
  {
    hide InlinedDescribes, Carries, Finished, Survives, KeywordSurvives, NameFromRef, KeywordFollows, KeywordDescribes,
         IsModeled, IsPlain, Inlines;
    var raw, shadow := RawAt(d.input.g, NodeAt(d.input, parent)), Shadow(d.input, parent);
    var k :| k in raw && !IsModeled(k) && k !in shadow && KeywordFollows(k, raw[k], RText(ref));
    assert OwnDescribes(d.input.g, whole, raw);
    var part := KeywordFollowedInlines(d.input.g, k, raw[k], whole.own[k], ref, d.built.Keys);
    InlinesDescribes(d.input.g, part, NameFromRef(ref, d.input.g.components.Keys).value);
    o := StandsFor(d, part, NodeAt(d.input, Nested(parent, ref)));
    forall r | Survives(part, r) ensures Carries(d, r) {
      assert KeywordSurvives(k, whole.own[k], r);
      assert ExtrasSurvive(whole, shadow, r);
    }
    forall r | ExtrasSurvive(o, {}, r) ensures Carries(d, r) { ExtrasAreCarried(o, r); }
  }

  lemma {:induction false} BesideWritten(d: Doc, parent: Place, whole: Out) returns (o: Out)
    requires Finished(d) && IsPlace(d.input, d.built.Keys, Beside(parent))
    requires IsPlain(d.input.g, NodeAt(d.input, Beside(parent)))
    requires WrittenAt(d, parent, whole)
    ensures WrittenAt(d, Beside(parent), o)
  {
    hide Carries, Finished, Survives, KeywordSurvives, NameFromRef, KeywordDescribes, IsModeled, IsPlain, Inlines;
    var raw, shadow := RawAt(d.input.g, NodeAt(d.input, parent)), Shadow(d.input, parent);
    assert OwnDescribes(d.input.g, whole, raw) && InlinedDescribes(d.input.g, whole, raw);
    var part := whole.inlined.value;
    var all := shadow + OwnKeys(raw);
    InlinesDescribes(d.input.g, part, NameFromRef(TopRef(raw).text, d.input.g.components.Keys).value);
    o := StandsFor(d, part, NodeAt(d.input, Beside(parent)));
    forall r | ExtrasSurvive(o, all, r) ensures Carries(d, r) {
      if o == part {
        assert ExtrasSurvive(whole, shadow, r);
      } else {
        ExtrasShadow(o, {}, all, r);
        ExtrasAreCarried(o, r);
      }
    }
  }

  /** A reference hidden at a place is in the document. */
  lemma {:induction false} HiddenIsCarried(d: Doc, p: Place, r: string)
    requires Finished(d) && HiddenAt(d.input, d.built.Keys, p, r)
    ensures Carries(d, r)
  {
    hide InlinedDescribes, Carries, Finished, Survives, KeywordSurvives, KeywordHides, KeywordDescribes, IsModeled,
         Resolved;
    var o := PlaceWritten(d, p);
    var raw := RawAt(d.input.g, NodeAt(d.input, p));
    var k :| k in raw && !IsModeled(k) && k !in Shadow(d.input, p) && KeywordHides(k, raw[k], r);
    assert OwnDescribes(d.input.g, o, raw);
    KeywordHiddenSurvives(d.input.g, k, raw[k], o.own[k], r);
    assert ExtrasSurvive(o, Shadow(d.input, p), r);
  }

  // ---------------------------------------------------------------- nothing else survives

  lemma {:induction false} SurvivorPlace(d: Doc, o: Out, p: Place, r: string) returns (q: Place)
    requires Finished(d) && IsPlace(d.input, d.built.Keys, p) && !p.Beside?
    requires Describes(d.input.g, o, NodeAt(d.input, p)) && Survives(o, r)
    ensures HiddenAt(d.input, d.built.Keys, q, r)
    decreases o, 1
  {
    hide OwnDescribes, InlinedDescribes, Finished, HiddenAt, ExtrasSurvive, NameFromRef;
    if ExtrasSurvive(o, {}, r) {
      q := ExtraPlace(d, o, p, r);
    } else {
      var i :| 0 <= i < |o.children| && Survives(o.children[i].1, r);
      q := SurvivorPlace(d, o.children[i].1, Below(p, i), r);
    }
  }

  lemma {:induction false} ExtraPlace(d: Doc, o: Out, p: Place, r: string) returns (q: Place)
    requires Finished(d) && IsPlace(d.input, d.built.Keys, p)
    requires Describes(d.input.g, o, NodeAt(d.input, p)) && ExtrasSurvive(o, Shadow(d.input, p), r)
    ensures HiddenAt(d.input, d.built.Keys, q, r)
    decreases o, 0
  {
    hide Finished, Survives, KeywordSurvives, NameFromRef, KeywordHides, KeywordFollows, KeywordDescribes, IsModeled,
         Inlines;
    var raw, shadow := RawAt(d.input.g, NodeAt(d.input, p)), Shadow(d.input, p);
    assert OwnDescribes(d.input.g, o, raw) && InlinedDescribes(d.input.g, o, raw);
    if k :| k in o.own && k !in shadow && KeywordSurvives(k, o.own[k], r) {
      var origin := KeywordSurvivorOrigin(d.input.g, k, raw[k], o.own[k], r);
      if origin.FromHere? {
        q := p;
      } else {
        assert NodeFollows(raw, shadow, RText(origin.ref));
        InlinedSurvivor(d.input.g, origin.part, NameFromRef(origin.ref, d.input.g.components.Keys).value, r);
        q := SurvivorPlace(d, origin.part, Nested(p, origin.ref), r);
      }
    } else {
      InlinedExtra(d.input.g, o.inlined.value, NameFromRef(TopRef(raw).text, d.input.g.components.Keys).value,
        shadow + o.own.Keys, r);
      q := ExtraPlace(d, o.inlined.value, Beside(p), r);
    }
  }

  lemma {:induction false} InlinedSurvivor(g: Graph, part: Out, name: string, r: string)
    requires Inlines(g, part, name) && Survives(part, r)
    ensures Describes(g, part, g.components[name])
  {
  }

  lemma {:induction false} InlinedExtra(g: Graph, part: Out, name: string, shadow: set<string>, r: string)
    requires Inlines(g, part, name) && ExtrasSurvive(part, shadow, r)
    ensures Describes(g, part, g.components[name])
  {
  }

  // ---------------------------------------------------------------- the exact condition

  /**
   A document carries a raw reference exactly when some schema written in it has that reference, in its raw part, under
   `not` or `additionalProperties`.
   */
  lemma {:induction false} CarriedExactlyHidden(d: Doc, r: string)
    requires Finished(d)
    ensures Carries(d, r) <==> exists p :: HiddenAt(d.input, d.built.Keys, p, r)
  {
    hide Describes, Survives, HiddenAt, IsPlain, Resolved;
    if i :| 0 <= i < |d.outs| && Survives(d.outs[i], r) {
      var q := SurvivorPlace(d, d.outs[i], Root(i), r);
    } else if n :| n in d.built && Survives(d.built[n], r) {
      var q := SurvivorPlace(d, d.built[n], Component(n), r);
    } else if p :| HiddenAt(d.input, d.built.Keys, p, r) {
      HiddenIsCarried(d, p, r);
    }
  }

  /** A finished document is self-contained exactly when every reference hidden this way names one of its components. */
  lemma {:induction false} SelfContainedExactly(d: Doc)
    requires Finished(d)
    ensures SelfContained(d) <==> forall p, r | HiddenAt(d.input, d.built.Keys, p, r) :: LeadsHome(r, d.built.Keys)
  {
    hide Carries, HiddenAt, AllResolved, EntriesResolved, LeadsHome, ComponentsDescribe, Describes, IsPlain;
    forall r ensures Carries(d, r) <==> exists p :: HiddenAt(d.input, d.built.Keys, p, r) {
      CarriedExactlyHidden(d, r);
    }
  }

  /** So a graph whose raw schemas hide nothing yields self-contained documents, whatever is selected. */
  lemma {:induction false} NothingHidden(d: Doc)
    requires Finished(d) && forall id, r | 0 <= id < |d.input.g.nodes| :: !NodeHides(d.input.g.nodes[id].raw, {}, r)
    ensures SelfContained(d)
  {
    hide NodeHides, IsPlace, Finished, SelfContained;
    SelfContainedExactly(d);
    forall p, r ensures !HiddenAt(d.input, d.built.Keys, p, r) {
      if HiddenAt(d.input, d.built.Keys, p, r) {
        FewerShadowed(RawAt(d.input.g, NodeAt(d.input, p)), Shadow(d.input, p), r);
      }
    }
  }

  lemma {:induction false} FewerShadowed(raw: map<string, Raw>, shadow: set<string>, r: string)
    requires NodeHides(raw, shadow, r)
    ensures NodeHides(raw, {}, r)
  {
  }

  // ---------------------------------------------------------------- the components, before building

  /** Components that some reached schema refers to. */
  ghost function ReferencedNames(input: Input): set<string> {
    set n | n in input.g.components && Referenced(input.g, Reachable(input.g, input.roots), n)
  }

  /** The document holds components only that are reached, and referenced or recursive. */
  ghost predicate HoldsWanted(d: Doc) {
    forall n | n in d.built :: Wanted(d.input.g, Reachable(d.input.g, d.input.roots), n)
  }

  /** The schema is part of the document, written out unless it is a reference or a boolean. */
  ghost predicate Seen(d: Doc, id: nat, o: Out) {
    Describes(d.input.g, o, id) && Resolved(o, d.built.Keys) && (IsPlain(d.input.g, id) ==> o.OutSchema?)
  }

  lemma {:induction false} ComponentSeen(d: Doc, name: string)
    requires Finished(d) && name in d.built
    ensures name in d.input.g.components && Seen(d, d.input.g.components[name], d.built[name])
  {
    hide Describes, Resolved, IsPlain, AllResolved;
  }

  /** A part that describes a schema stands for what the document says of it. */
  lemma {:induction false} PartSeen(d: Doc, part: Out, id: nat) returns (o: Out)
    requires Finished(d) && Describes(d.input.g, part, id) && Resolved(part, d.built.Keys)
    ensures Seen(d, id, o)
  {
    hide OwnDescribes, InlinedDescribes, NameFromRef;
    o := part;
    if IsPlain(d.input.g, id) { o := StandsFor(d, part, id); }
  }

  lemma {:induction false} InlinedSeen(d: Doc, part: Out, name: string) returns (o: Out)
    requires Finished(d) && Inlines(d.input.g, part, name) && Resolved(part, d.built.Keys)
    ensures name in d.input.g.components && Seen(d, d.input.g.components[name], o)
  {
    hide Describes, Finished, Seen;
    if part == OutRef(name) {
      RefResolved(name, d.built.Keys);
      ComponentSeen(d, name);
      o := d.built[name];
    } else {
      o := PartSeen(d, part, d.input.g.components[name]);
    }
  }

  lemma {:induction false} RefResolved(name: string, names: set<string>)
    requires Resolved(OutRef(name), names)
    ensures name in names
  {
  }

  /** What a schema of the document leads to is in the document. */
  lemma {:induction false} SeenNext(d: Doc, a: nat, o: Out, b: nat) returns (next: Out)
    requires Finished(d) && Seen(d, a, o) && Next(d.input.g, a, b)
    ensures Seen(d, b, next)
  {
    hide Finished, Seen, Describes, NodeMentions, NameFromRef, IsChild;
    if IsChild(d.input.g, a, b) {
      next := SeenChild(d, a, o, b);
    } else {
      var ref :| NodeMentions(d.input.g, a, ref) && NamesNode(d.input.g, ref, b);
      next := SeenMention(d, a, o, ref.text);
    }
  }

  lemma {:induction false} SeenChild(d: Doc, a: nat, o: Out, b: nat) returns (next: Out)
    requires Finished(d) && Seen(d, a, o) && IsChild(d.input.g, a, b)
    ensures Seen(d, b, next)
  {
    hide Finished, OwnDescribes, InlinedDescribes;
    var k :| 0 <= k < |d.input.g.nodes[a].children| && d.input.g.nodes[a].children[k].node == b;
    next := PartSeen(d, o.children[k].1, b);
  }

  lemma {:induction false} SeenMention(d: Doc, a: nat, o: Out, s: string) returns (next: Out)
    requires Finished(d) && Seen(d, a, o) && NodeMentions(d.input.g, a, RText(s))
    requires NameFromRef(s, d.input.g.components.Keys).Ok?
    ensures Seen(d, d.input.g.components[NameFromRef(s, d.input.g.components.Keys).value], next)
  {
    hide Finished, Inlines, KeywordDescribes, KeywordFollows, NameFromRef, IsModeled;
    var g, name := d.input.g, NameFromRef(s, d.input.g.components.Keys).value;
    if g.nodes[a].refPath.Some? {
      ComponentSeen(d, name);
      next := d.built[name];
    } else {
      var raw := g.nodes[a].raw;
      assert OwnDescribes(g, o, raw) && InlinedDescribes(g, o, raw);
      if TopRef(raw) == RText(s) {
        next := InlinedSeen(d, o.inlined.value, name);
      } else {
        var k :| k in raw && !IsModeled(k) && k !in {} && KeywordFollows(k, raw[k], RText(s));
        var part := KeywordFollowedInlines(g, k, raw[k], o.own[k], s, d.built.Keys);
        next := InlinedSeen(d, part, name);
      }
    }
  }

  lemma {:induction false} RootSeen(d: Doc, i: nat)
    requires Finished(d) && i < |d.input.roots|
    ensures i < |d.outs| && Seen(d, d.input.roots[i], d.outs[i])
  {
    hide Describes, Resolved, IsPlain;
  }

  lemma {:induction false} SeenAlong(d: Doc, p: seq<nat>) returns (o: Out)
    requires Finished(d) && p != [] && p[0] in d.input.roots && Route(d.input.g, p)
    ensures Seen(d, p[|p| - 1], o)
  {
    hide Finished, Seen, Next;
    if |p| == 1 {
      var i :| 0 <= i < |d.input.roots| && d.input.roots[i] == p[0];
      RootSeen(d, i);
      o := d.outs[i];
    } else {
      var before := p[..|p| - 1];
      assert Route(d.input.g, before);
      var last := SeenAlong(d, before);
      o := SeenNext(d, before[|before| - 1], last, p[|p| - 1]);
    }
  }

  lemma {:induction false} SeenReachable(d: Doc, id: nat) returns (o: Out)
    requires Finished(d) && id in Reachable(d.input.g, d.input.roots)
    ensures Seen(d, id, o)
  {
    hide Finished, Seen, Route;
    var r :| r in d.input.roots && AtOrLeads(d.input.g, r, id);
    if r == id {
      RouteOfOne(d.input.g, r);
      o := SeenAlong(d, [r]);
    } else {
      var p :| Route(d.input.g, p) && |p| > 1 && p[0] == r && p[|p| - 1] == id;
      o := SeenAlong(d, p);
    }
  }

  lemma {:induction false} RouteOfOne(g: Graph, id: nat)
    ensures Route(g, [id])
  {
  }

  /** Every component that a reached schema refers to is in the document; any other one there is recursive. */
  lemma {:induction false} NamesOfDocument(d: Doc)
    requires Finished(d) && HoldsWanted(d)
    ensures ReferencedNames(d.input) <= d.built.Keys
    ensures forall n | n in d.built && n !in ReferencedNames(d.input) :: Recursive(d.input.g, n)
  {
    hide Finished, Leads, Reachable;
    forall n | n in ReferencedNames(d.input) ensures n in d.built {
      ReferencedIsBuilt(d, n);
    }
  }

  lemma {:induction false} ReferencedIsBuilt(d: Doc, n: string)
    requires Finished(d) && n in ReferencedNames(d.input)
    ensures n in d.built
  {
    hide Finished, Reachable, NameFromRef;
    var g := d.input.g;
    var id :| id in Reachable(g, d.input.roots) && id < |g.nodes| && g.nodes[id].refPath.Some?
              && NameFromRef(g.nodes[id].refPath.value, g.components.Keys) == Ok(n);
    var o := SeenReachable(d, id);
    assert o.OutRef?;
  }

  /** Every reached component that leads back to itself is referenced by a parsed schema. */
  ghost predicate RecursionIsReferenced(input: Input) {
    forall n | Recursive(input.g, n) && input.g.components[n] in Reachable(input.g, input.roots) ::
      n in ReferencedNames(input)
  }

  /**
   Then all is known before building: the components are those referenced, and the document is self-contained exactly
   when every hidden reference names one of them.
   */
  lemma {:induction false} SelfContainedBefore(d: Doc)
    requires Finished(d) && HoldsWanted(d) && RecursionIsReferenced(d.input)
    ensures d.built.Keys == ReferencedNames(d.input)
    ensures SelfContained(d) <==>
            forall p, r | HiddenAt(d.input, ReferencedNames(d.input), p, r) :: LeadsHome(r, ReferencedNames(d.input))
  {
    hide Finished, Wanted, ReferencedNames, HiddenAt, LeadsHome, SelfContained;
    NamesOfDocument(d);
    assert forall n | n in d.built :: Wanted(d.input.g, Reachable(d.input.g, d.input.roots), n);
    forall n | n in d.built ensures n in ReferencedNames(d.input) { WantedIsReached(d.input, n); }
    SelfContainedExactly(d);
  }

  lemma {:induction false} WantedIsReached(input: Input, n: string)
    requires Wanted(input.g, Reachable(input.g, input.roots), n)
    ensures n in input.g.components && input.g.components[n] in Reachable(input.g, input.roots)
  {
  }

  /** Build the selected schemas of a parsed graph. */
  method BuildDocument(input: Input, names: seq<string>) returns (r: Result<Doc, BuildError>)
    requires WellFormed(input.g) && (forall i | 0 <= i < |input.roots| :: input.roots[i] < |input.g.nodes|)
    requires forall n | n in names :: n in input.g.components
    ensures r.Ok? ==> r.value.input == input && Finished(r.value) && HoldsWanted(r.value)
    ensures r.Ok? && RecursionIsReferenced(input) ==>
              && r.value.built.Keys == ReferencedNames(input)
              && (SelfContained(r.value) <==>
                    forall p, ref | HiddenAt(input, ReferencedNames(input), p, ref) ::
                      LeadsHome(ref, ReferencedNames(input)))
  {
    hide Reachable, ClosedScope, Wanted, IsDocument, RecursionIsReferenced, ReferencedNames, HiddenAt, LeadsHome,
         SelfContained, Explains;
    ghost var scope := Reachable(input.g, input.roots);
    ReachableCloses(input.g, input.roots);
    var builder := new DocumentBuilder(input.g, names, scope);
    var outs := builder.Build(input.roots);
    if outs.Err? { return Err(outs.error); }
    r := Ok(Doc(input, outs.value, builder.built));
    if RecursionIsReferenced(input) { SelfContainedBefore(r.value); }
  }

  // ---------------------------------------------------------------- a document that is not self-contained

  const TAG := "#/components/schemas/Tag"

  /**
   A schema with `"if": {"not": {"$ref": TAG}}` in its raw part, or the same with the other keyword, and a component.
   */
  function HidingGraph(forgotten: string): Graph {
    Graph([SchemaNode(None, None, map["if" := RDict(map[forgotten := RDict(map["$ref" := RText(TAG)])])], []),
           SchemaNode(None, None, map[], [])],
          map["Tag" := 1])
  }

  lemma {:induction false} HidingRaw(forgotten: string)
    requires IsForgotten(forgotten)
    ensures NodeHides(HidingGraph(forgotten).nodes[0].raw, {}, TAG)
    ensures forall ref :: !NodeFollows(HidingGraph(forgotten).nodes[0].raw, {}, ref)
  {
    var inner := RDict(map["$ref" := RText(TAG)]);
    var outer := RDict(map[forgotten := inner]);
    var raw := HidingGraph(forgotten).nodes[0].raw;
    KeywordFacts(forgotten, inner);
    assert RefersTo(inner, TAG);
    assert KeywordHides(forgotten, inner, TAG);
    assert Hides(outer, TAG) by { assert forgotten in outer.entries; }
    assert "if" in raw && !IsModeled("if") && KeywordHides("if", raw["if"], TAG);
    forall ref ensures !KeywordFollows(forgotten, inner, ref) { }
    forall ref ensures !Follows(outer, ref) { }
    forall ref ensures !KeywordFollows("if", outer, ref) { }
  }

  /** It leads to no other schema. */
  lemma {:induction false} HidingScope(forgotten: string)
    requires IsForgotten(forgotten)
    ensures ClosedScope(HidingGraph(forgotten), {0})
    ensures forall named, error :: !Explains(HidingGraph(forgotten), named, {0}, error)
  {
    hide NameFromRef, NodeMentions, Next, IsForgotten;
    var g := HidingGraph(forgotten);
    HidingMentionsNothing(forgotten);
    assert forall ref :: !Mentioned(g, {0}, ref);
    forall named, error ensures !Explains(g, named, {0}, error) { }
  }

  lemma {:induction false} HidingMentionsNothing(forgotten: string)
    requires IsForgotten(forgotten)
    ensures forall ref :: !NodeMentions(HidingGraph(forgotten), 0, ref)
    ensures forall b :: !Next(HidingGraph(forgotten), 0, b)
    ensures !Leads(HidingGraph(forgotten), 0, 0)
  {
    hide IsForgotten, NodeFollows;
    HidingRaw(forgotten);
    LeadsNowhere(HidingGraph(forgotten), 0);
  }

  /** Building that schema succeeds with a document that refers to `Tag` and has no component at all. */
  method BuildHidingGraph(forgotten: string) returns (d: Doc)
    requires forgotten in {"not", "additionalProperties"}
    ensures Finished(d) && d.input == Input(HidingGraph(forgotten), [0]) && "Tag" in d.input.g.components
    ensures d.built == map[] && Carries(d, TAG) && !SelfContained(d)
  {
    hide IsForgotten, NodeHides, NodeFollows, ClosedScope, SelfContained, Carries, IsDocument, Explains, Referenced,
         Recursive;
    var g := HidingGraph(forgotten);
    KeywordFacts(forgotten, RNull);
    HidingScope(forgotten);
    var builder := new DocumentBuilder(g, ["Tag"], {0});
    var outs := builder.Build([0]);
    d := Doc(Input(g, [0]), outs.value, builder.built);
    HidingRaw(forgotten);
    assert HiddenAt(d.input, d.built.Keys, Root(0), TAG);
    CarriedExactlyHidden(d, TAG);
    NothingBuilt(d, forgotten);
    NotHome(d);
  }

  lemma {:induction false} NothingBuilt(d: Doc, forgotten: string)
    requires Finished(d) && d.input.g == HidingGraph(forgotten)
    requires forall n | n in d.built :: Wanted(d.input.g, {0}, n)
    ensures d.built == map[]
  {
    hide Describes, IsPlain, AllResolved, EntriesResolved, Referenced, Recursive;
    assert forall n | n in d.built :: n in d.input.g.components;
  }

  lemma {:induction false} NotHome(d: Doc)
    requires Carries(d, TAG) && d.built == map[]
    ensures !SelfContained(d)
  {
    assert !LeadsHome(TAG, d.built.Keys);
  }
}
