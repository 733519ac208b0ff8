/**
 Inferring a schema from an observed JSON value and widening a declared schema by it
 (restscope/api_behavior_monitor/contract_monitor.py).
 */
module ResponseSchema {
  import opened Wrappers

  datatype Json =
    | JNull
    | JBool(b: bool)
    | JInt(i: int)
    | JFloat(r: real)
    | JText(s: string)
    | JArray(elements: seq<Json>)
    | JObject(members: map<string, Json>)

  /** The part of a schema that widening reads or writes. */
  datatype Schema = Schema(types: seq<string>, properties: map<string, Schema>, items: Option<Schema>)

  function Plain(name: string): Schema {
    Schema([name], map[], None)
  }

  /**
   Closed-shape acceptance: the kind is listed (an integer counts as a number), every
   object member is declared, and a missing item schema allows only the empty array.
   */
  predicate Accepts(s: Schema, v: Json)
    decreases v
  {
    match v
    case JNull => "null" in s.types
    case JBool(_) => "boolean" in s.types
    case JInt(_) => "integer" in s.types || "number" in s.types
    case JFloat(_) => "number" in s.types
    case JText(_) => "string" in s.types
    case JArray(elements) =>
      && "array" in s.types
      && (elements != [] ==> s.items.Some?)
      && forall e | e in elements :: Accepts(s.items.value, e)
    case JObject(members) =>
      && "object" in s.types
      && forall name | name in members :: name in s.properties && Accepts(s.properties[name], members[name])
  }

  // ---------------------------------------------------------------- widening

  function AppendMissing(types: seq<string>, more: seq<string>): seq<string>
    decreases |more|
  {
    if more == [] then types
    else AppendMissing(if more[0] in types then types else types + [more[0]], more[1..])
  }

  predicate Listed(more: seq<string>, types: seq<string>) {
    forall x | x in more :: x in types
  }

  function MergedTypes(target: seq<string>, observed: seq<string>): seq<string> {
    if observed == [] then target
    else if target == [] then observed
    else if Listed(observed, target) then target
    else if observed == ["integer"] && "number" in target then target
    else AppendMissing(target, observed)
  }

  function Merge(target: Schema, observed: Schema): Schema
    decreases observed
  {
    var types := MergedTypes(target.types, observed.types);
    var properties :=
      if "object" in observed.types && "object" in types then
        map name | name in target.properties.Keys + observed.properties.Keys ::
          if name !in target.properties then observed.properties[name]
          else if name !in observed.properties then target.properties[name]
          else Merge(target.properties[name], observed.properties[name])
      else target.properties;
    var items :=
      if "array" in observed.types && "array" in types && observed.items.Some? then
        (if target.items.None? then observed.items else Some(Merge(target.items.value, observed.items.value)))
      else target.items;
    Schema(types, properties, items)
  }

  function Infer(v: Json): Schema {
    match v
    case JNull => Plain("null")
    case JBool(_) => Plain("boolean")
    case JInt(_) => Plain("integer")
    case JFloat(_) => Plain("number")
    case JText(_) => Plain("string")
    case JArray(elements) => Schema(["array"], map[], InferItems(elements))
    case JObject(members) => Schema(["object"], map name | name in members :: Infer(members[name]), None)
  }

  function InferItems(elements: seq<Json>): Option<Schema> {
    if elements == [] then None
    else
      var before := InferItems(elements[..|elements| - 1]);
      var last := Infer(elements[|elements| - 1]);
      if before.None? then Some(last) else Some(Merge(before.value, last))
  }

  // ---------------------------------------------------------------- acceptance grows

  lemma {:induction false} AppendMissingLists(types: seq<string>, more: seq<string>)
    ensures forall x :: x in AppendMissing(types, more) <==> x in types || x in more
    ensures types <= AppendMissing(types, more)
    ensures AppendMissing(types, more) == types <==> Listed(more, types)
    decreases |more|
  {
    if more != [] {
      AppendMissingLists(if more[0] in types then types else types + [more[0]], more[1..]);
      assert forall x :: x in more <==> x == more[0] || x in more[1..];
    }
  }

  /** Kinds named by a list of types, an integer being allowed wherever a number is. */
  predicate Allows(types: seq<string>, x: string) {
    x in types || (x == "integer" && "number" in types)
  }

  lemma {:induction false} MergedTypesAllow(target: seq<string>, observed: seq<string>)
    ensures forall x :: Allows(MergedTypes(target, observed), x) <==> Allows(target, x) || Allows(observed, x)
    ensures forall x | x in target || (x in observed && x != "integer") :: x in MergedTypes(target, observed)
    ensures Listed(observed, MergedTypes(target, observed)) || (observed == ["integer"] && "number" in target)
    ensures forall x | x in MergedTypes(target, observed) :: x in target || x in observed
  {
    AppendMissingLists(target, observed);
  }

  /** Widening accepts everything that either schema accepted. */
  lemma {:induction false} MergeAccepts(target: Schema, observed: Schema, v: Json)
    requires Accepts(target, v) || Accepts(observed, v)
    ensures Accepts(Merge(target, observed), v)
    decreases v
  {
    var merged := Merge(target, observed);
    MergedTypesAllow(target.types, observed.types);
    match v
    case JArray(elements) =>
      forall e | e in elements
        ensures merged.items.Some? && Accepts(merged.items.value, e)
      {
        if target.items.Some? && observed.items.Some? {
          MergeAccepts(target.items.value, observed.items.value, e);
        }
      }
      if elements != [] {
        assert elements[0] in elements;
      }
    case JObject(members) =>
      forall name | name in members
        ensures name in merged.properties && Accepts(merged.properties[name], members[name])
      {
        if name in target.properties && name in observed.properties {
          MergeAccepts(target.properties[name], observed.properties[name], members[name]);
        }
      }
    case _ =>
      assert forall x :: Allows(merged.types, x) <==> Allows(target.types, x) || Allows(observed.types, x);
  }

  /** The schema inferred from a value accepts that value. */
  lemma {:induction false} InferAccepts(v: Json)
    ensures Accepts(Infer(v), v)
    decreases v, 1
  {
    match v
    case JArray(elements) =>
      InferItemsAccepts(elements);
    case JObject(members) =>
      forall name | name in members
        ensures Accepts(Infer(members[name]), members[name])
      {
        InferAccepts(members[name]);
      }
    case _ =>
  }

  lemma {:induction false} InferItemsAccepts(elements: seq<Json>)
    ensures elements != [] ==> InferItems(elements).Some?
    ensures forall e | e in elements :: Accepts(InferItems(elements).value, e)
    decreases elements, 0
  {
    if elements != [] {
      var before, last := elements[..|elements| - 1], elements[|elements| - 1];
      InferItemsAccepts(before);
      InferAccepts(last);
      assert elements == before + [last];
      forall e | e in elements
        ensures Accepts(InferItems(elements).value, e)
      {
        if before != [] {
          MergeAccepts(InferItems(before).value, Infer(last), e);
        }
      }
    }
  }

  // ---------------------------------------------------------------- merging twice

  lemma {:induction false} SelfMerge(s: Schema)
    ensures Merge(s, s) == s
  {
    forall name | name in s.properties
      ensures Merge(s.properties[name], s.properties[name]) == s.properties[name]
    {
      SelfMerge(s.properties[name]);
    }
    if s.items.Some? {
      SelfMerge(s.items.value);
    }
    assert Merge(s, s).properties == s.properties;
  }

  lemma {:induction false} MergedTypesTwice(target: seq<string>, observed: seq<string>)
    ensures MergedTypes(MergedTypes(target, observed), observed) == MergedTypes(target, observed)
  {
    AppendMissingLists(target, observed);
  }

  /** Merging the same observation again changes nothing. */
  lemma {:induction false} MergeTwice(target: Schema, observed: Schema)
    ensures Merge(Merge(target, observed), observed) == Merge(target, observed)
    decreases observed
  {
    var once := Merge(target, observed);
    var twice := Merge(once, observed);
    MergedTypesTwice(target.types, observed.types);
    forall name | name in observed.properties
      ensures Merge(observed.properties[name], observed.properties[name]) == observed.properties[name]
      ensures name in target.properties ==>
                var m := Merge(target.properties[name], observed.properties[name]);
                Merge(m, observed.properties[name]) == m
    {
      SelfMerge(observed.properties[name]);
      if name in target.properties {
        MergeTwice(target.properties[name], observed.properties[name]);
      }
    }
    if observed.items.Some? {
      SelfMerge(observed.items.value);
      if target.items.Some? {
        MergeTwice(target.items.value, observed.items.value);
      }
    }
    assert twice.properties.Keys == once.properties.Keys;
    assert twice.properties == once.properties;
  }

  // ---------------------------------------------------------------- order of observations

  /** Members and items are declared only where the kind that carries them is listed. */
  predicate Tidy(s: Schema) {
    && (s.properties != map[] ==> "object" in s.types)
    && (s.items.Some? ==> "array" in s.types && Tidy(s.items.value))
    && forall name | name in s.properties :: Tidy(s.properties[name])
  }

  /** `t` allows every kind of `s` and declares all that `s` declares, at least as widely. */
  predicate Covers(t: Schema, s: Schema)
    decreases s
  {
    && (forall x | x in s.types :: Allows(t.types, x))
    && (forall name | name in s.properties :: name in t.properties && Covers(t.properties[name], s.properties[name]))
    && (s.items.Some? ==> t.items.Some? && Covers(t.items.value, s.items.value))
  }

  lemma {:induction false} CoversItself(s: Schema)
    ensures Covers(s, s)
  {
    forall name | name in s.properties
      ensures Covers(s.properties[name], s.properties[name])
    {
      CoversItself(s.properties[name]);
    }
    if s.items.Some? {
      CoversItself(s.items.value);
    }
  }

  /** A covering schema accepts whatever the covered one accepts. */
  lemma {:induction false} CoversAccepts(t: Schema, s: Schema, v: Json)
    requires Covers(t, s) && Accepts(s, v)
    ensures Accepts(t, v)
    decreases v
  {
    match v
    case JArray(elements) =>
      assert Allows(t.types, "array");
      forall e | e in elements
        ensures t.items.Some? && Accepts(t.items.value, e)
      {
        CoversAccepts(t.items.value, s.items.value, e);
      }
    case JObject(members) =>
      assert Allows(t.types, "object");
      forall name | name in members
        ensures name in t.properties && Accepts(t.properties[name], members[name])
      {
        CoversAccepts(t.properties[name], s.properties[name], members[name]);
      }
    case JInt(_) =>
      assert Allows(t.types, "integer") || Allows(t.types, "number");
    case JNull => assert Allows(t.types, "null");
    case JBool(_) => assert Allows(t.types, "boolean");
    case JFloat(_) => assert Allows(t.types, "number");
    case JText(_) => assert Allows(t.types, "string");
  }

  lemma {:induction false} CoversTransitive(a: Schema, b: Schema, c: Schema)
    requires Covers(a, b) && Covers(b, c)
    ensures Covers(a, c)
    decreases c
  {
    forall x | x in c.types
      ensures Allows(a.types, x)
    {
      assert Allows(b.types, x);
    }
    forall name | name in c.properties
      ensures name in a.properties && Covers(a.properties[name], c.properties[name])
    {
      CoversTransitive(a.properties[name], b.properties[name], c.properties[name]);
    }
    if c.items.Some? {
      CoversTransitive(a.items.value, b.items.value, c.items.value);
    }
  }

  lemma {:induction false} MergeKeys(target: Schema, observed: Schema)
    ensures forall name | name in Merge(target, observed).properties ::
              name in target.properties || name in observed.properties
    ensures Tidy(observed) ==>
              Merge(target, observed).properties.Keys == target.properties.Keys + observed.properties.Keys
    ensures Tidy(observed) && observed.items.Some? ==> Merge(target, observed).items.Some?
  {
    MergedTypesAllow(target.types, observed.types);
  }

  /** A merge covers its target, and a tidy observation. */
  lemma {:induction false} MergeCovers(target: Schema, observed: Schema)
    ensures Covers(Merge(target, observed), target)
    ensures Tidy(observed) ==> Covers(Merge(target, observed), observed)
    decreases observed
  {
    var merged := Merge(target, observed);
    MergedTypesAllow(target.types, observed.types);
    MergeKeys(target, observed);
    CoversItself(target);
    CoversItself(observed);
    forall name | name in target.properties && name in observed.properties {
      MergeCovers(target.properties[name], observed.properties[name]);
    }
    if target.items.Some? && observed.items.Some? {
      MergeCovers(target.items.value, observed.items.value);
    }
    assert forall x | x in target.types || x in observed.types :: Allows(merged.types, x);
  }

  /** It is the least such schema. */
  lemma {:induction false} MergeLeast(target: Schema, observed: Schema, upper: Schema)
    requires Covers(upper, target) && Covers(upper, observed)
    ensures Covers(upper, Merge(target, observed))
    decreases observed
  {
    var merged := Merge(target, observed);
    MergedTypesAllow(target.types, observed.types);
    forall name | name in merged.properties
      ensures name in upper.properties && Covers(upper.properties[name], merged.properties[name])
    {
      if name in target.properties && name in observed.properties {
        MergeLeast(target.properties[name], observed.properties[name], upper.properties[name]);
      }
    }
    if target.items.Some? && observed.items.Some? {
      MergeLeast(target.items.value, observed.items.value, upper.items.value);
    }
  }

  lemma {:induction false} MergeTidy(target: Schema, observed: Schema)
    requires Tidy(target) && Tidy(observed)
    ensures Tidy(Merge(target, observed))
    decreases observed
  {
    var merged := Merge(target, observed);
    MergedTypesAllow(target.types, observed.types);
    forall name | name in merged.properties
      ensures Tidy(merged.properties[name])
    {
      if name in target.properties && name in observed.properties {
        MergeTidy(target.properties[name], observed.properties[name]);
      }
    }
    if target.items.Some? && observed.items.Some? {
      MergeTidy(target.items.value, observed.items.value);
    }
  }

  lemma {:induction false} InferTidy(v: Json)
    ensures Tidy(Infer(v))
    decreases v, 1
  {
    match v
    case JArray(elements) =>
      InferItemsTidy(elements);
    case JObject(members) =>
      forall name | name in members
        ensures Tidy(Infer(members[name]))
      {
        InferTidy(members[name]);
      }
    case _ =>
  }

  lemma {:induction false} InferItemsTidy(elements: seq<Json>)
    ensures InferItems(elements).Some? ==> Tidy(InferItems(elements).value)
    decreases elements, 0
  {
    if elements != [] {
      InferItemsTidy(elements[..|elements| - 1]);
      InferTidy(elements[|elements| - 1]);
      if |elements| > 1 && InferItems(elements[..|elements| - 1]).Some? {
        MergeTidy(InferItems(elements[..|elements| - 1]).value, Infer(elements[|elements| - 1]));
      }
    }
  }

  function MergeAll(target: Schema, observations: seq<Json>): Schema {
    if observations == [] then target
    else Merge(MergeAll(target, observations[..|observations| - 1]), Infer(observations[|observations| - 1]))
  }

  lemma {:induction false} MergeAllCovers(target: Schema, observations: seq<Json>)
    ensures Covers(MergeAll(target, observations), target)
    ensures forall v | v in observations :: Covers(MergeAll(target, observations), Infer(v))
  {
    if observations == [] {
      CoversItself(target);
    } else {
      var before, last := observations[..|observations| - 1], observations[|observations| - 1];
      MergeAllCovers(target, before);
      InferTidy(last);
      MergeCovers(MergeAll(target, before), Infer(last));
      CoversTransitive(MergeAll(target, observations), MergeAll(target, before), target);
      assert observations == before + [last];
      forall v | v in before {
        CoversTransitive(MergeAll(target, observations), MergeAll(target, before), Infer(v));
      }
    }
  }

  lemma {:induction false} MergeAllLeast(target: Schema, observations: seq<Json>, upper: Schema)
    requires Covers(upper, target) && forall v | v in observations :: Covers(upper, Infer(v))
    ensures Covers(upper, MergeAll(target, observations))
  {
    if observations != [] {
      var before, last := observations[..|observations| - 1], observations[|observations| - 1];
      assert observations == before + [last];
      MergeAllLeast(target, before, upper);
      MergeLeast(MergeAll(target, before), Infer(last), upper);
    }
  }

  /** The inferred schema is the least one that accepts the value. */
  lemma {:induction false} InferLeast(v: Json, upper: Schema)
    requires Accepts(upper, v)
    ensures Covers(upper, Infer(v))
    decreases v, 1
  {
    match v
    case JArray(elements) =>
      if elements != [] {
        assert elements[0] in elements;
        InferItemsLeast(elements, upper.items.value);
      }
    case JObject(members) =>
      forall name | name in members
        ensures Covers(upper.properties[name], Infer(members[name]))
      {
        InferLeast(members[name], upper.properties[name]);
      }
    case _ =>
  }

  lemma {:induction false} InferItemsLeast(elements: seq<Json>, upper: Schema)
    requires forall e | e in elements :: Accepts(upper, e)
    ensures InferItems(elements).Some? ==> Covers(upper, InferItems(elements).value)
    decreases elements, 0
  {
    if elements != [] {
      var before, last := elements[..|elements| - 1], elements[|elements| - 1];
      assert elements == before + [last];
      InferItemsLeast(before, upper);
      InferLeast(last, upper);
      if before != [] {
        InferItemsAccepts(before);
        MergeLeast(InferItems(before).value, Infer(last), upper);
      }
    }
  }

  /** Widening gives the least schema that covers the declared one and accepts everything observed. */
  lemma {:induction false} WideningIsLeast(target: Schema, observations: seq<Json>, upper: Schema)
    requires Covers(upper, target) && forall v | v in observations :: Accepts(upper, v)
    ensures Covers(upper, MergeAll(target, observations))
  {
    forall v | v in observations {
      InferLeast(v, upper);
    }
    MergeAllLeast(target, observations, upper);
  }

  /**
   What is accepted after widening depends only on which values were observed:
   order and repetition do not matter, whatever schema was declared at first.
   */
  lemma {:induction false} ObservationOrderIrrelevant(target: Schema, first: seq<Json>, second: seq<Json>, v: Json)
    requires forall x :: x in first <==> x in second
    ensures Accepts(MergeAll(target, first), v) <==> Accepts(MergeAll(target, second), v)
  {
    MergeAllCovers(target, first);
    MergeAllCovers(target, second);
    MergeAllLeast(target, first, MergeAll(target, second));
    MergeAllLeast(target, second, MergeAll(target, first));
    if Accepts(MergeAll(target, first), v) {
      CoversAccepts(MergeAll(target, second), MergeAll(target, first), v);
    }
    if Accepts(MergeAll(target, second), v) {
      CoversAccepts(MergeAll(target, first), MergeAll(target, second), v);
    }
  }

  /** After any observations, every observed value is accepted and so is everything accepted before. */
  lemma {:induction false} ObservedAreAccepted(target: Schema, observations: seq<Json>, v: Json)
    requires v in observations || Accepts(target, v)
    ensures Accepts(MergeAll(target, observations), v)
  {
    MergeAllCovers(target, observations);
    if v in observations {
      InferAccepts(v);
      CoversAccepts(MergeAll(target, observations), Infer(v), v);
    } else {
      CoversAccepts(MergeAll(target, observations), target, v);
    }
  }
}
